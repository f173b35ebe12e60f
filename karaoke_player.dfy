/** The page controller (KaraokePlayer): it loads a file into a MidiPlayer,
    forwards play/pause/stop, polls the player's clock on an interval timer
    and shows the previous, current and next lyric. The three lyric lines
    of the page are the fields `previousText`, `currentText` and
    `nextText`. */
module Karaoke {
  import opened Wrappers
  import opened MidiBytes
  import opened MidiParser
  import opened Midi
  import TimeOrder

  /** findIndex(lyric => lyric.time > currentTime) from `i` on, or the
      length when none is. */
  function FirstAfter(lyrics: seq<Lyric>, currentTime: real, i: nat): (k: nat)
    requires i <= |lyrics|
    ensures i <= k <= |lyrics|
    decreases |lyrics| - i
  {
    if i == |lyrics| || lyrics[i].time > currentTime then i else FirstAfter(lyrics, currentTime, i + 1)
  }

  /** The lyric on display at `currentTime`: the one before the first lyric
      that has not started yet, and the first lyric when none has. */
  function LyricIndex(lyrics: seq<Lyric>, currentTime: real): (k: nat)
    requires lyrics != []
    ensures k < |lyrics|
  {
    var found := FirstAfter(lyrics, currentTime, 0);
    if found == 0 then 0 else found - 1
  }

  lemma {:induction false} FirstAfterSpec(lyrics: seq<Lyric>, currentTime: real, i: nat)
    requires i <= |lyrics|
    ensures forall j :: i <= j < FirstAfter(lyrics, currentTime, i) ==> lyrics[j].time <= currentTime
    ensures FirstAfter(lyrics, currentTime, i) < |lyrics| ==> lyrics[FirstAfter(lyrics, currentTime, i)].time > currentTime
    decreases |lyrics| - i
  {
    if i < |lyrics| && lyrics[i].time <= currentTime {
      FirstAfterSpec(lyrics, currentTime, i + 1);
    }
  }

  /** On time-sorted lyrics the displayed lyric is the last one that has
      started, or the first one while none has; the next one has not
      started. */
  lemma LyricIndexSpec(lyrics: seq<Lyric>, currentTime: real)
    requires lyrics != [] && TimeOrder.SortedBy(lyrics, LyricTime)
    ensures var k := LyricIndex(lyrics, currentTime);
      && (lyrics[0].time <= currentTime ==> lyrics[k].time <= currentTime)
      && (lyrics[0].time > currentTime ==> k == 0)
      && (k + 1 < |lyrics| ==> lyrics[k + 1].time > currentTime)
      && (forall j :: 0 <= j < k ==> lyrics[j].time <= currentTime)
  {
    FirstAfterSpec(lyrics, currentTime, 0);
    var k := LyricIndex(lyrics, currentTime);
    if lyrics[0].time > currentTime {
      assert FirstAfter(lyrics, currentTime, 0) == 0;
    }
    if k + 1 < |lyrics| && FirstAfter(lyrics, currentTime, 0) == 0 {
      assert LyricTime(lyrics[0]) <= LyricTime(lyrics[k + 1]);
    }
  }

  /** As the clock advances the displayed lyric never moves back. */
  lemma LyricIndexMonotone(lyrics: seq<Lyric>, earlier: real, later: real)
    requires lyrics != [] && TimeOrder.SortedBy(lyrics, LyricTime) && earlier <= later
    ensures LyricIndex(lyrics, earlier) <= LyricIndex(lyrics, later)
  {
    FirstAfterSpec(lyrics, earlier, 0);
    FirstAfterSpec(lyrics, later, 0);
    var a := FirstAfter(lyrics, earlier, 0);
    var b := FirstAfter(lyrics, later, 0);
  }

  /** The text shown above the current lyric: the previous one, if any. */
  function PreviousText(lyrics: seq<Lyric>, k: nat): string
    requires k < |lyrics|
  {
    if k > 0 then lyrics[k - 1].text else ""
  }

  /** The text shown below the current lyric: the next one, if any. */
  function NextText(lyrics: seq<Lyric>, k: nat): string
    requires k < |lyrics|
  {
    if k < |lyrics| - 1 then lyrics[k + 1].text else ""
  }

  const NoLyricsMessage: string := "No lyrics found in file"

  /** The text the current line holds before any file is loaded. */
  const LoadPrompt: string := "Load a karaoke file..."

  // ---------------------------------------------------------------------
  // The three lyric lines

  /** The lyric index and the three lines of the page. */
  datatype Display = Display(index: nat, previous: string, current: string, next: string)

  /** The lines that show lyric `k`. */
  function Lines(lyrics: seq<Lyric>, k: nat): (d: Display)
    requires k < |lyrics|
    ensures d.index == k && d.current == lyrics[k].text
    ensures d.previous == (if k > 0 then lyrics[k - 1].text else "")
    ensures d.next == (if k + 1 < |lyrics| then lyrics[k + 1].text else "")
  {
    Display(k, PreviousText(lyrics, k), lyrics[k].text, NextText(lyrics, k))
  }

  /** The lines show the lyric at the index. */
  predicate InStep(d: Display, lyrics: seq<Lyric>)
  {
    d.index < |lyrics| && d == Lines(lyrics, d.index)
  }

  /** updateLyricsDisplay(currentTime): with no lyrics only the current line
      changes, to the message; otherwise the index moves to the lyric on
      display at `currentTime`, and the lines are rewritten only when it
      moved. */
  function Refresh(d: Display, lyrics: seq<Lyric>, currentTime: real): (r: Display)
    ensures lyrics == [] ==> r == d.(current := NoLyricsMessage)
    ensures lyrics != [] ==> r.index == LyricIndex(lyrics, currentTime)
    ensures lyrics != [] && r.index != d.index ==> r == Lines(lyrics, r.index)
    ensures lyrics != [] && r.index == d.index ==> r == d
  {
    if lyrics == [] then d.(current := NoLyricsMessage)
    else
      var k := LyricIndex(lyrics, currentTime);
      if k == d.index then d else Lines(lyrics, k)
  }

  /** Lines that show the lyric at their index keep doing so: after a
      refresh they show the lyric on display at the new time. */
  lemma RefreshKeepsInStep(d: Display, lyrics: seq<Lyric>, currentTime: real)
    requires InStep(d, lyrics)
    ensures Refresh(d, lyrics, currentTime) == Lines(lyrics, LyricIndex(lyrics, currentTime))
    ensures InStep(Refresh(d, lyrics, currentTime), lyrics)
  {
  }

  /** processMidiFile as written: reset the index to 0, then refresh at
      time 0. */
  function LoadAsWritten(d: Display, lyrics: seq<Lyric>): Display
  {
    Refresh(d.(index := 0), lyrics, 0.0)
  }

  /** When the first lyric starts after time 0 the index stays 0, so the
      load rewrites no line: the current line keeps whatever it held (the
      prompt, or the previous file's lyric) instead of the first lyric. */
  lemma LoadLeavesStaleLine(d: Display, lyrics: seq<Lyric>)
    requires lyrics != [] && lyrics[0].time > 0.0
    ensures LoadAsWritten(d, lyrics) == d.(index := 0)
    ensures LyricIndex(lyrics, 0.0) == 0
    ensures d.current != lyrics[0].text ==> !InStep(LoadAsWritten(d, lyrics), lyrics)
  {
    assert FirstAfter(lyrics, 0.0, 0) == 0;
  }

  /** A one-lyric file loaded on the fresh page still shows the prompt. */
  lemma FirstLoadShowsPrompt()
    ensures var lyrics := [Lyric(1.0, "la", 0)];
      LoadAsWritten(Display(0, "", LoadPrompt, ""), lyrics).current == LoadPrompt
  {
    LoadLeavesStaleLine(Display(0, "", LoadPrompt, ""), [Lyric(1.0, "la", 0)]);
  }

  /** processMidiFile corrected: with lyrics, write the three lines for the
      lyric on display at time 0 whatever the index was; with none, show the
      message at index 0. */
  function LoadDisplay(d: Display, lyrics: seq<Lyric>): Display
  {
    if lyrics == [] then Display(0, d.previous, NoLyricsMessage, d.next)
    else Lines(lyrics, LyricIndex(lyrics, 0.0))
  }

  /** After the corrected load the lines show the lyric on display at time
      0, and every later refresh keeps them in step. */
  lemma LoadShowsLyric(d: Display, lyrics: seq<Lyric>, later: real)
    requires lyrics != []
    ensures InStep(LoadDisplay(d, lyrics), lyrics)
    ensures LoadDisplay(d, lyrics).current == lyrics[LyricIndex(lyrics, 0.0)].text
    ensures Refresh(LoadDisplay(d, lyrics), lyrics, later) == Lines(lyrics, LyricIndex(lyrics, later))
  {
    RefreshKeepsInStep(LoadDisplay(d, lyrics), lyrics, later);
  }

  // ---------------------------------------------------------------------
  // The clock-polling timer

  /** The interval timers that are alive, and whether the player still
      holds a handle to one (timeUpdateInterval is not null). */
  datatype Timers = Timers(live: nat, held: bool)

  /** startTimeUpdate as written: a new interval is created and its handle
      replaces any handle already held. */
  function StartAsWritten(t: Timers): Timers
  {
    Timers(t.live + 1, true)
  }

  /** stopTimeUpdate: clear the held interval, if any. */
  function StopTimers(t: Timers): (r: Timers)
    requires t.held ==> t.live > 0
    ensures !r.held
    ensures r.live == if t.held then t.live - 1 else t.live
  {
    if t.held then Timers(t.live - 1, false) else t
  }

  /** Every live interval can still be cleared: it is the one held. */
  predicate Accounted(t: Timers)
  {
    t.live == if t.held then 1 else 0
  }

  /** Pressing play twice and then stop leaves one interval polling the
      clock with no handle left to clear it. */
  lemma PlayTwiceLeaksTimer()
    ensures var t := StopTimers(StartAsWritten(StartAsWritten(Timers(0, false))));
      t.live == 1 && !t.held && !Accounted(t)
  {
  }

  /** startTimeUpdate corrected: clear the held interval before starting a
      new one. */
  function StartTimers(t: Timers): (r: Timers)
    requires t.held ==> t.live > 0
    ensures r.held && r.live == (if t.held then t.live else t.live + 1)
  {
    StartAsWritten(StopTimers(t))
  }

  /** With the corrected start, starting and stopping in any order keep every
      live interval accounted for. */
  lemma TimersStayAccounted(t: Timers)
    requires Accounted(t)
    ensures Accounted(StartTimers(t))
    ensures Accounted(StopTimers(t))
  {
  }

  // ---------------------------------------------------------------------
  // The page controller

  class KaraokePlayer {
    var midiPlayer: MidiPlayer?
    var lyrics: seq<Lyric>
    var currentLyricIndex: nat
    var timers: Timers
    var previousText: string
    var currentText: string
    var nextText: string

    /** The index and the three lines. */
    function Shown(): Display
      reads this
    {
      Display(currentLyricIndex, previousText, currentText, nextText)
    }

    /** The lyrics shown are those of the loaded player, the lines show the
        lyric at the index, and every live interval timer is held. */
    ghost predicate Valid()
      reads this, midiPlayer
    {
      && (midiPlayer == null ==> lyrics == [])
      && (midiPlayer != null ==> midiPlayer.Valid() && lyrics == midiPlayer.lyrics)
      && (lyrics != [] ==> InStep(Shown(), lyrics))
      && Accounted(timers)
    }

    constructor()
      ensures Valid()
      ensures midiPlayer == null && lyrics == [] && currentLyricIndex == 0
      ensures Shown() == Display(0, "", LoadPrompt, "")
      ensures timers == Timers(0, false)
    {
      midiPlayer := null;
      lyrics := [];
      currentLyricIndex := 0;
      timers := Timers(0, false);
      previousText := "";
      currentText := LoadPrompt;
      nextText := "";
    }

    /** Write the three lines for lyric `k`. */
    method ShowLyric(k: nat)
      requires k < |lyrics|
      modifies this`currentLyricIndex, this`previousText, this`currentText, this`nextText
      ensures Shown() == Lines(lyrics, k)
    {
      currentLyricIndex := k;
      previousText := if k > 0 then lyrics[k - 1].text else "";
      currentText := lyrics[k].text;
      nextText := if k < |lyrics| - 1 then lyrics[k + 1].text else "";
    }

    /** updateLyricsDisplay: with no lyrics, say so; otherwise move to the
        lyric on display at `currentTime` and rewrite the three lines only
        when that lyric changed. */
    method UpdateLyricsDisplay(currentTime: real)
      requires Valid()
      modifies this`currentLyricIndex, this`previousText, this`currentText, this`nextText
      ensures Valid()
      ensures Shown() == Refresh(old(Shown()), lyrics, currentTime)
      ensures lyrics != [] ==> Shown() == Lines(lyrics, LyricIndex(lyrics, currentTime))
    {
      if lyrics == [] {
        currentText := NoLyricsMessage;
        return;
      }
      RefreshKeepsInStep(Shown(), lyrics, currentTime);
      var found := FirstAfter(lyrics, currentTime, 0);
      var newIndex := if found == 0 then 0 else found - 1;
      if newIndex != currentLyricIndex {
        ShowLyric(newIndex);
      }
    }

    /** processMidiFile: load the buffer into a new player, take its lyrics
        and show the lyric on display at time zero (the corrected load: the
        lines are written whatever the index was); a load error is passed on
        and leaves everything as it was. */
    method ProcessMidiFile(buf: seq<byte>) returns (r: Result<(), LoadError>)
      requires Valid()
      modifies this`midiPlayer, this`lyrics, this`currentLyricIndex, this`previousText, this`currentText, this`nextText
      ensures Valid()
      ensures ParseFile(buf).Failure? ==> r == Failure(ParseError(ParseFile(buf).error))
      ensures r.Failure? ==> unchanged(this)
      ensures r.Success? ==>
        && ParseFile(buf).Success? && ParseFile(buf).value.timeDivision > 0
        && midiPlayer != null && fresh(midiPlayer)
        && midiPlayer.midiData == ParseFile(buf).value
        && lyrics == TimeOrder.SortBy(CollectLyrics(ParseFile(buf).value.tracks, DefaultTempo,
                                                    ParseFile(buf).value.timeDivision), LyricTime)
        && Shown() == LoadDisplay(old(Shown()), lyrics)
    {
      var loaded := Open(buf);
      if loaded.Failure? {
        return Failure(loaded.error);
      }
      midiPlayer := loaded.value;
      lyrics := midiPlayer.lyrics;
      if lyrics == [] {
        currentLyricIndex := 0;
        currentText := NoLyricsMessage;
      } else {
        ShowLyric(LyricIndex(lyrics, 0.0));
      }
      r := Success(());
    }

    /** The interval callback: show the lyric for the player's clock. */
    method TimeUpdate()
      requires Valid() && midiPlayer != null
      modifies this`currentLyricIndex, this`previousText, this`currentText, this`nextText
      ensures Valid()
      ensures Shown() == Refresh(old(Shown()), lyrics, midiPlayer.currentTime)
      ensures lyrics != [] ==> Shown() == Lines(lyrics, LyricIndex(lyrics, midiPlayer.currentTime))
    {
      UpdateLyricsDisplay(midiPlayer.currentTime);
    }

    /** play: start the loaded player and the clock polling. */
    method Play(now: real) returns (notes: seq<TrackEvent>)
      requires Valid()
      modifies this`timers, midiPlayer
      ensures Valid()
      ensures midiPlayer == null ==> notes == [] && timers == old(timers)
      ensures midiPlayer != null ==> timers == Timers(1, true)
      ensures midiPlayer != null && old(midiPlayer.playing) ==>
        && notes == [] && midiPlayer.playing
        && midiPlayer.currentTime == old(midiPlayer.currentTime)
        && midiPlayer.currentEventIndex == old(midiPlayer.currentEventIndex)
        && midiPlayer.startTime == old(midiPlayer.startTime)
      ensures midiPlayer != null && !old(midiPlayer.playing) ==>
        var events := midiPlayer.events;
        var first := old(midiPlayer.currentEventIndex);
        var end := DueEnd(events, first, old(midiPlayer.currentTime));
        && midiPlayer.startTime == now - old(midiPlayer.currentTime) * 1000.0
        && notes == Sounded(events[first..end])
        && (end < |events| ==>
              midiPlayer.playing && midiPlayer.currentEventIndex == end
              && midiPlayer.currentTime == old(midiPlayer.currentTime))
        && (end == |events| ==>
              !midiPlayer.playing && midiPlayer.currentEventIndex == 0 && midiPlayer.currentTime == 0.0)
    {
      notes := [];
      if midiPlayer != null {
        notes := midiPlayer.Play(now);
        timers := StartTimers(timers);
      }
    }

    /** pause: pause the loaded player and stop the clock polling. */
    method Pause()
      requires Valid()
      modifies this`timers, midiPlayer
      ensures Valid()
      ensures midiPlayer == null ==> timers == old(timers)
      ensures midiPlayer != null ==>
        && !midiPlayer.playing && timers == Timers(0, false)
        && midiPlayer.currentTime == old(midiPlayer.currentTime)
        && midiPlayer.currentEventIndex == old(midiPlayer.currentEventIndex)
        && midiPlayer.startTime == old(midiPlayer.startTime)
    {
      if midiPlayer != null {
        midiPlayer.Pause();
        timers := StopTimers(timers);
      }
    }

    /** stop: stop and rewind the loaded player, stop the clock polling and
        refresh the lines at time zero. */
    method Stop()
      requires Valid()
      modifies this`timers, this`currentLyricIndex, this`previousText, this`currentText, this`nextText, midiPlayer
      ensures Valid()
      ensures midiPlayer == null ==> timers == old(timers) && Shown() == old(Shown())
      ensures midiPlayer != null ==>
        && !midiPlayer.playing && midiPlayer.currentTime == 0.0 && midiPlayer.currentEventIndex == 0
        && timers == Timers(0, false)
        && Shown() == Refresh(old(Shown()), lyrics, 0.0)
        && (lyrics != [] ==> Shown() == Lines(lyrics, LyricIndex(lyrics, 0.0)))
    {
      if midiPlayer != null {
        midiPlayer.Stop();
        timers := StopTimers(timers);
        UpdateLyricsDisplay(0.0);
      }
    }
  }
}
