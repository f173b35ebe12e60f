/** The Standard MIDI File reader: chunk headers, the header chunk's fields,
    and the per-track event walk with running status. */
module MidiParser {
  import opened Wrappers
  import opened MidiBytes
  import opened MidiText

  /** The two kinds of event the reader records: a text meta event
      (subtypes 0x01-0x0F) and a note-off/note-on channel event. */
  datatype TrackEvent =
    | Meta(deltaTime: nat, subtype: byte, text: string)
    | Channel(deltaTime: nat, command: byte, channel: byte, note: byte, velocity: byte)

  datatype Chunk = Chunk(id: string, length: nat)

  datatype ParsedMidi = ParsedMidi(format: nat, numTracks: nat, timeDivision: nat, tracks: seq<seq<TrackEvent>>)

  /** One step of the track walk: the event recorded (if any), the cursor
      after it and the running status after it. */
  datatype Decoded = Decoded(event: Option<TrackEvent>, next: nat, runningStatus: byte)

  /** The four bytes at `pos` read as characters (String.fromCharCode). */
  function IdAt(buf: seq<byte>, pos: nat): (id: string)
    requires pos + 4 <= |buf|
  {
    [buf[pos] as char, buf[pos + 1] as char, buf[pos + 2] as char, buf[pos + 3] as char]
  }

  /** parseChunk: a four-character id and a big-endian 32-bit length. */
  function ParseChunk(buf: seq<byte>, pos: nat): (r: Result<Chunk, Error>)
  {
    if pos + 8 <= |buf| then Success(Chunk(IdAt(buf, pos), ReadU32(buf, pos + 4).value))
    else Failure(OutOfBounds)
  }

  /** parseChunk reads the eight bytes at `pos` and nothing else: it fails
      exactly when they are not all in the buffer, and two buffers that agree
      on them give the same chunk. */
  lemma ParseChunkReadsEightBytes(buf: seq<byte>, other: seq<byte>, pos: nat)
    requires pos + 8 <= |other|
    requires pos + 8 <= |buf| ==> buf[pos..pos + 8] == other[pos..pos + 8]
    ensures ParseChunk(buf, pos).Failure? <==> |buf| < pos + 8
    ensures ParseChunk(buf, pos).Success? ==> ParseChunk(buf, pos) == ParseChunk(other, pos)
    ensures ParseChunk(buf, pos).Success? ==> |ParseChunk(buf, pos).value.id| == 4
  {
    if pos + 8 <= |buf| {
      forall i | pos <= i < pos + 8 ensures buf[i] == other[i] {
        assert buf[i] == buf[pos..pos + 8][i - pos];
      }
    }
  }

  /** The command nibble of a status byte (`status & 0xF0`). */
  function CommandOf(status: byte): byte
  {
    status / 0x10 * 0x10
  }

  /** The channel nibble of a status byte (`status & 0x0F`). */
  function ChannelOf(status: byte): byte
  {
    status % 0x10
  }

  /** ArrayBuffer.slice(from, to), which clamps both ends to the buffer. */
  function Slice(buf: seq<byte>, from: nat, to: nat): (s: seq<byte>)
  {
    var a := if from < |buf| then from else |buf|;
    var b := if to < |buf| then to else |buf|;
    if a < b then buf[a..b] else []
  }

  /** The events the reader can record: text meta events with subtypes
      0x01-0x0F and note-off/note-on events on channels 0-15. */
  predicate Recordable(e: TrackEvent)
  {
    match e
    case Meta(_, subtype, _) => 0x01 <= subtype <= 0x0F
    case Channel(_, command, channel, _, _) => (command == 0x80 || command == 0x90) && channel < 0x10
  }

  /** One iteration of parseTrackEvents' loop from cursor `pos` with the
      given running status. */
  function DecodeEvent(buf: seq<byte>, pos: nat, runningStatus: byte): (r: Result<Decoded, Error>)
    ensures r.Success? ==> pos < r.value.next
    ensures r.Failure? ==> r.error == OutOfBounds
  {
    DecodeVlqShape(buf, pos);
    match DecodeVlq(buf, pos)
    case Failure(e) => Failure(e)
    case Success(delta) =>
      var p := pos + delta.length;
      if p >= |buf| then Failure(OutOfBounds)
      else
        var status := if buf[p] < 0x80 then runningStatus else buf[p];
        var q := if buf[p] < 0x80 then p else p + 1;
        if status == 0xFF then
          if q >= |buf| then Failure(OutOfBounds)
          else
            DecodeVlqShape(buf, q + 1);
            match DecodeVlq(buf, q + 1)
            case Failure(e) => Failure(e)
            case Success(len) =>
              var textStart := q + 1 + len.length;
              var event :=
                if 0x01 <= buf[q] <= 0x0F
                then Some(Meta(delta.value, buf[q], DecodeFallback(Slice(buf, textStart, textStart + len.value))))
                else None;
              Success(Decoded(event, textStart + len.value, status))
        else if CommandOf(status) == 0x80 || CommandOf(status) == 0x90 then
          if q + 2 > |buf| then Failure(OutOfBounds)
          else
            Success(Decoded(Some(Channel(delta.value, CommandOf(status), ChannelOf(status), buf[q], buf[q + 1])), q + 2, status))
        else Success(Decoded(None, q, status))
  }

  /** Every event the reader records is Recordable. */
  lemma DecodeEventRecordable(buf: seq<byte>, pos: nat, runningStatus: byte)
    ensures var r := DecodeEvent(buf, pos, runningStatus);
      r.Success? && r.value.event.Some? ==> Recordable(r.value.event.value)
  {
  }

  function Recorded(event: Option<TrackEvent>): seq<TrackEvent>
  {
    if event.Some? then [event.value] else []
  }

  /** The rest of the track walk from `pos` to `end`, after `events` were recorded. */
  function TrackFrom(buf: seq<byte>, pos: nat, end: nat, runningStatus: byte, events: seq<TrackEvent>)
    : Result<seq<TrackEvent>, Error>
    decreases end - pos
  {
    if pos >= end then Success(events)
    else
      match DecodeEvent(buf, pos, runningStatus)
      case Failure(e) => Failure(e)
      case Success(d) => TrackFrom(buf, d.next, end, d.runningStatus, events + Recorded(d.event))
  }

  /** parseTrackEvents(dv, start, length): the walk starts with running status 0. */
  function TrackEvents(buf: seq<byte>, start: nat, length: nat): Result<seq<TrackEvent>, Error>
  {
    TrackFrom(buf, start, start + length, 0, [])
  }

  /** The body of parseTrackEvents' loop: read the delta time, apply
      running status, then read a meta event or a note-off/note-on event. */
  method ParseEvent(buf: seq<byte>, start: nat, runningStatus: byte) returns (r: Result<Decoded, Error>)
    ensures r == DecodeEvent(buf, start, runningStatus)
  {
    var position := start;
    var status := runningStatus;
    var deltaTime := ParseVlq(buf, position);
    if deltaTime.Failure? {
      return Failure(deltaTime.error);
    }
    position := position + deltaTime.value.length;
    if position >= |buf| {
      return Failure(OutOfBounds);
    }
    var eventType := buf[position];
    position := position + 1;
    if eventType < 0x80 {
      eventType := status;
      position := position - 1;
    } else {
      status := eventType;
    }
    var event: Option<TrackEvent> := None;
    if eventType == 0xFF {
      if position >= |buf| {
        return Failure(OutOfBounds);
      }
      var metaType := buf[position];
      position := position + 1;
      var len := ParseVlq(buf, position);
      if len.Failure? {
        return Failure(len.error);
      }
      position := position + len.value.length;
      if 0x01 <= metaType <= 0x0F {
        var text := DecodeFallback(Slice(buf, position, position + len.value.value));
        event := Some(Meta(deltaTime.value.value, metaType, text));
      }
      position := position + len.value.value;
    } else {
      var channel := ChannelOf(eventType);
      var command := CommandOf(eventType);
      if command == 0x80 || command == 0x90 {
        if position + 2 > |buf| {
          return Failure(OutOfBounds);
        }
        event := Some(Channel(deltaTime.value.value, command, channel, buf[position], buf[position + 1]));
        position := position + 2;
      }
    }
    return Success(Decoded(event, position, status));
  }

  /** parseTrackEvents: advances a cursor to the end of the chunk, keeping
      the running status and appending the recorded events. */
  method ParseTrackEvents(buf: seq<byte>, start: nat, length: nat) returns (r: Result<seq<TrackEvent>, Error>)
    ensures r == TrackEvents(buf, start, length)
  {
    var events: seq<TrackEvent> := [];
    var position := start;
    var runningStatus: byte := 0;
    var end := start + length;
    while position < end
      invariant TrackFrom(buf, position, end, runningStatus, events) == TrackEvents(buf, start, length)
      decreases end - position
    {
      var step := ParseEvent(buf, position, runningStatus);
      if step.Failure? {
        return Failure(step.error);
      }
      events := events + Recorded(step.value.event);
      position := step.value.next;
      runningStatus := step.value.runningStatus;
    }
    return Success(events);
  }

  /** The rest of the chunk walk of parse: `count` more track chunks from `pos`. */
  function TracksFrom(buf: seq<byte>, pos: nat, count: nat, tracks: seq<seq<TrackEvent>>)
    : Result<seq<seq<TrackEvent>>, Error>
    decreases count
  {
    if count == 0 then Success(tracks)
    else
      match ParseChunk(buf, pos)
      case Failure(e) => Failure(e)
      case Success(c) =>
        if c.id != "MTrk" then Failure(BadTrackChunk(pos))
        else
          match TrackEvents(buf, pos + 8, c.length)
          case Failure(e) => Failure(e)
          case Success(events) => TracksFrom(buf, pos + 8 + c.length, count - 1, tracks + [events])
  }

  /** parse: the header chunk, the three header fields at absolute offsets
      8, 10 and 12, then `numTracks` track chunks. */
  function ParseFile(buf: seq<byte>): Result<ParsedMidi, Error>
  {
    match ParseChunk(buf, 0)
    case Failure(e) => Failure(e)
    case Success(header) =>
      if header.id != "MThd" then Failure(MissingHeader)
      else if |buf| < 14 then Failure(OutOfBounds)
      else
        var numTracks := ReadU16(buf, 10).value;
        match TracksFrom(buf, 8 + header.length, numTracks, [])
        case Failure(e) => Failure(e)
        case Success(tracks) => Success(ParsedMidi(ReadU16(buf, 8).value, numTracks, ReadU16(buf, 12).value, tracks))
  }

  /** parse: the loop over the track chunks, advancing `position` by each
      chunk's eight header bytes and its length. */
  method Parse(buf: seq<byte>) returns (r: Result<ParsedMidi, Error>)
    ensures r == ParseFile(buf)
  {
    var position: nat := 0;
    var headerChunk := ParseChunk(buf, position);
    if headerChunk.Failure? {
      return Failure(headerChunk.error);
    }
    if headerChunk.value.id != "MThd" {
      return Failure(MissingHeader);
    }
    position := position + 8 + headerChunk.value.length;
    var format := ReadU16(buf, 8);
    var numTracks := ReadU16(buf, 10);
    var timeDivision := ReadU16(buf, 12);
    if format.Failure? || numTracks.Failure? || timeDivision.Failure? {
      return Failure(OutOfBounds);
    }
    var tracks: seq<seq<TrackEvent>> := [];
    var i := 0;
    while i < numTracks.value
      invariant 0 <= i <= numTracks.value
      invariant TracksFrom(buf, position, numTracks.value - i, tracks)
             == TracksFrom(buf, 8 + headerChunk.value.length, numTracks.value, [])
    {
      var trackChunk := ParseChunk(buf, position);
      if trackChunk.Failure? {
        return Failure(trackChunk.error);
      }
      if trackChunk.value.id != "MTrk" {
        return Failure(BadTrackChunk(position));
      }
      var trackData := ParseTrackEvents(buf, position + 8, trackChunk.value.length);
      if trackData.Failure? {
        return Failure(trackData.error);
      }
      tracks := tracks + [trackData.value];
      position := position + 8 + trackChunk.value.length;
      i := i + 1;
    }
    return Success(ParsedMidi(format.value, numTracks.value, timeDivision.value, tracks));
  }

  predicate AllRecordable(events: seq<TrackEvent>)
  {
    forall i :: 0 <= i < |events| ==> Recordable(events[i])
  }

  predicate TracksRecordable(tracks: seq<seq<TrackEvent>>)
  {
    forall t :: 0 <= t < |tracks| ==> AllRecordable(tracks[t])
  }

  lemma {:induction false} TrackFromRecordable(buf: seq<byte>, pos: nat, end: nat, runningStatus: byte, events: seq<TrackEvent>)
    requires AllRecordable(events)
    ensures var r := TrackFrom(buf, pos, end, runningStatus, events);
      r.Success? ==> AllRecordable(r.value)
    decreases end - pos
  {
    if pos < end {
      var d := DecodeEvent(buf, pos, runningStatus);
      if d.Success? {
        DecodeEventRecordable(buf, pos, runningStatus);
        var more := events + Recorded(d.value.event);
        assert forall i :: 0 <= i < |more| ==> Recordable(more[i]);
        TrackFromRecordable(buf, d.value.next, end, d.value.runningStatus, more);
      }
    }
  }

  lemma {:induction false} TracksFromLength(buf: seq<byte>, pos: nat, count: nat, tracks: seq<seq<TrackEvent>>)
    ensures var r := TracksFrom(buf, pos, count, tracks);
      r.Success? ==> |r.value| == |tracks| + count && r.value[..|tracks|] == tracks
    decreases count
  {
    if count > 0 {
      var c := ParseChunk(buf, pos);
      if c.Success? && c.value.id == "MTrk" {
        var events := TrackEvents(buf, pos + 8, c.value.length);
        if events.Success? {
          var more := tracks + [events.value];
          TracksFromLength(buf, pos + 8 + c.value.length, count - 1, more);
          var r := TracksFrom(buf, pos, count, tracks);
          if r.Success? {
            assert r.value[..|tracks|] == r.value[..|more|][..|tracks|];
          }
        }
      }
    }
  }

  /** The event lists of consecutive "MTrk" chunks hold only recordable events. */
  lemma {:induction false} ChunksAtRecordable(buf: seq<byte>, pos: nat, found: seq<seq<TrackEvent>>)
    requires ChunksAt(buf, pos, found)
    ensures TracksRecordable(found)
    decreases |found|
  {
    if found != [] {
      var c := ParseChunk(buf, pos).value;
      TrackFromRecordable(buf, pos + 8, pos + 8 + c.length, 0, []);
      ChunksAtRecordable(buf, pos + 8 + c.length, found[1..]);
      forall t | 0 <= t < |found|
        ensures AllRecordable(found[t])
      {
        if t > 0 {
          assert found[t] == found[1..][t - 1];
        }
      }
    }
  }

  lemma TracksFromRecordable(buf: seq<byte>, pos: nat, count: nat, tracks: seq<seq<TrackEvent>>)
    requires TracksRecordable(tracks)
    ensures var r := TracksFrom(buf, pos, count, tracks);
      r.Success? ==> TracksRecordable(r.value)
  {
    var r := TracksFrom(buf, pos, count, tracks);
    TracksFromChunksSound(buf, pos, count, tracks);
    if r.Success? {
      var found := r.value[|tracks|..];
      ChunksAtRecordable(buf, pos, found);
      forall t | 0 <= t < |r.value|
        ensures AllRecordable(r.value[t])
      {
        if t < |tracks| {
          assert r.value[t] == r.value[..|tracks|][t];
        } else {
          assert r.value[t] == found[t - |tracks|];
        }
      }
    }
  }

  /** `tracks` are the event lists of consecutive "MTrk" chunks starting at
      `pos`: each chunk's body is read from eight bytes past its start, and
      the next chunk begins right after that body. */
  predicate ChunksAt(buf: seq<byte>, pos: nat, tracks: seq<seq<TrackEvent>>)
    decreases |tracks|
  {
    tracks == [] ||
      (ParseChunk(buf, pos).Success?
       && ParseChunk(buf, pos).value.id == "MTrk"
       && TrackEvents(buf, pos + 8, ParseChunk(buf, pos).value.length) == Success(tracks[0])
       && ChunksAt(buf, pos + 8 + ParseChunk(buf, pos).value.length, tracks[1..]))
  }

  /** A track chunk whose id is not "MTrk" stops the walk with the error
      naming its position. */
  lemma TracksFromBadChunk(buf: seq<byte>, pos: nat, count: nat, tracks: seq<seq<TrackEvent>>)
    requires count > 0 && ParseChunk(buf, pos).Success? && ParseChunk(buf, pos).value.id != "MTrk"
    ensures TracksFrom(buf, pos, count, tracks) == Failure(BadTrackChunk(pos))
  {
  }

  /** Whatever the chunk walk returns after `acc` was read are consecutive
      "MTrk" chunks from `pos`, one per remaining track. */
  lemma {:induction false} TracksFromChunksSound(buf: seq<byte>, pos: nat, count: nat, acc: seq<seq<TrackEvent>>)
    ensures var r := TracksFrom(buf, pos, count, acc);
      r.Success? ==> |r.value| == |acc| + count && r.value[..|acc|] == acc && ChunksAt(buf, pos, r.value[|acc|..])
    decreases count
  {
    var r := TracksFrom(buf, pos, count, acc);
    if count > 0 && r.Success? {
      var c := ParseChunk(buf, pos).value;
      var events := TrackEvents(buf, pos + 8, c.length).value;
      var more := acc + [events];
      TracksFromChunksSound(buf, pos + 8 + c.length, count - 1, more);
      var found := r.value[|acc|..];
      assert found[0] == r.value[..|more|][|acc|];
      assert found[1..] == r.value[|more|..];
      assert r.value[..|acc|] == r.value[..|more|][..|acc|];
    }
  }

  /** Consecutive "MTrk" chunks from `pos` are read back by the chunk walk. */
  lemma {:induction false} TracksFromChunksComplete(buf: seq<byte>, pos: nat, acc: seq<seq<TrackEvent>>,
                                                    found: seq<seq<TrackEvent>>)
    requires ChunksAt(buf, pos, found)
    ensures TracksFrom(buf, pos, |found|, acc) == Success(acc + found)
    decreases |found|
  {
    if found == [] {
      assert acc + found == acc;
    } else {
      var c := ParseChunk(buf, pos).value;
      TracksFromChunksComplete(buf, pos + 8 + c.length, acc + [found[0]], found[1..]);
      assert (acc + [found[0]]) + found[1..] == acc + found;
    }
  }

  /** The chunk walk succeeds with `acc + found` exactly when `found` are
      `count` consecutive "MTrk" chunks from `pos`. */
  lemma TracksFromChunks(buf: seq<byte>, pos: nat, count: nat, acc: seq<seq<TrackEvent>>, found: seq<seq<TrackEvent>>)
    ensures TracksFrom(buf, pos, count, acc) == Success(acc + found) <==> |found| == count && ChunksAt(buf, pos, found)
  {
    TracksFromChunksSound(buf, pos, count, acc);
    if |found| == count && ChunksAt(buf, pos, found) {
      TracksFromChunksComplete(buf, pos, acc, found);
    }
    if TracksFrom(buf, pos, count, acc) == Success(acc + found) {
      assert (acc + found)[|acc|..] == found;
    }
  }

  /** A successful parse read its tracks from consecutive "MTrk" chunks,
      the first one right after the header chunk. */
  lemma ParseFileTracks(buf: seq<byte>)
    ensures ParseFile(buf).Success? ==>
      8 <= |buf| && ChunksAt(buf, 8 + ReadU32(buf, 4).value, ParseFile(buf).value.tracks)
  {
    var r := ParseFile(buf);
    if r.Success? {
      var header := ParseChunk(buf, 0).value;
      var n := ReadU16(buf, 10).value;
      assert [] + r.value.tracks == r.value.tracks;
      TracksFromChunks(buf, 8 + header.length, n, [], r.value.tracks);
    }
  }

  /** A successful parse starts with "MThd", reads format, track count and
      time division as big-endian 16-bit values at offsets 8, 10 and 12,
      returns exactly `numTracks` track lists, and records only text meta
      events 0x01-0x0F and note-off/note-on events, read from consecutive
      "MTrk" chunks right after the header chunk. A file whose first four
      bytes are not "MThd" is rejected with MissingHeader, and one whose
      first track chunk is not "MTrk" with BadTrackChunk at its position. */
  lemma ParseFileShape(buf: seq<byte>)
    ensures var r := ParseFile(buf);
      && (r.Success? ==>
            && 14 <= |buf|
            && IdAt(buf, 0) == "MThd"
            && r.value.format == buf[8] as int * 0x100 + buf[9]
            && r.value.numTracks == buf[10] as int * 0x100 + buf[11]
            && r.value.timeDivision == buf[12] as int * 0x100 + buf[13]
            && |r.value.tracks| == r.value.numTracks
            && TracksRecordable(r.value.tracks)
            && ChunksAt(buf, 8 + ReadU32(buf, 4).value, r.value.tracks))
      && (r == Failure(MissingHeader) <==> 8 <= |buf| && IdAt(buf, 0) != "MThd")
      && (14 <= |buf| && IdAt(buf, 0) == "MThd" && ReadU16(buf, 10).value > 0
          && ParseChunk(buf, 8 + ReadU32(buf, 4).value).Success?
          && ParseChunk(buf, 8 + ReadU32(buf, 4).value).value.id != "MTrk"
          ==> r == Failure(BadTrackChunk(8 + ReadU32(buf, 4).value)))
  {
    if 14 <= |buf| && IdAt(buf, 0) == "MThd" {
      var header := ParseChunk(buf, 0).value;
      var n := ReadU16(buf, 10).value;
      TracksFromLength(buf, 8 + header.length, n, []);
      TracksFromRecordable(buf, 8 + header.length, n, []);
      TracksFromNeverMissingHeader(buf, 8 + header.length, n, []);
      if n > 0 && ParseChunk(buf, 8 + header.length).Success? && ParseChunk(buf, 8 + header.length).value.id != "MTrk" {
        TracksFromBadChunk(buf, 8 + header.length, n, []);
      }
    }
    ParseFileTracks(buf);
  }

  lemma {:induction false} TracksFromNeverMissingHeader(buf: seq<byte>, pos: nat, count: nat, tracks: seq<seq<TrackEvent>>)
    ensures TracksFrom(buf, pos, count, tracks) != Failure(MissingHeader)
    decreases count
  {
    if count > 0 {
      var c := ParseChunk(buf, pos);
      if c.Success? && c.value.id == "MTrk" {
        var events := TrackEvents(buf, pos + 8, c.value.length);
        TrackFromNeverMissingHeader(buf, pos + 8, pos + 8 + c.value.length, 0, []);
        if events.Success? {
          TracksFromNeverMissingHeader(buf, pos + 8 + c.value.length, count - 1, tracks + [events.value]);
        }
      }
    }
  }

  lemma {:induction false} TrackFromNeverMissingHeader(buf: seq<byte>, pos: nat, end: nat, runningStatus: byte, events: seq<TrackEvent>)
    ensures TrackFrom(buf, pos, end, runningStatus, events) != Failure(MissingHeader)
    decreases end - pos
  {
    if pos < end {
      var d := DecodeEvent(buf, pos, runningStatus);
      if d.Success? {
        TrackFromNeverMissingHeader(buf, d.value.next, end, d.value.runningStatus, events + Recorded(d.value.event));
      }
    }
  }

  /** Running status: after the delta time, a byte with bit 7 clear is not a
      status byte. The event reuses the running status and the byte is read
      as its first data byte (the meta subtype or the note number); a byte
      with bit 7 set becomes the new running status and is consumed. An
      unrecognised command consumes no data bytes. */
  lemma RunningStatusRule(buf: seq<byte>, pos: nat, runningStatus: byte)
    requires DecodeVlq(buf, pos).Success?
    requires pos + DecodeVlq(buf, pos).value.length < |buf|
    ensures var p := pos + DecodeVlq(buf, pos).value.length;
      var status := if buf[p] < 0x80 then runningStatus else buf[p];
      var first := if buf[p] < 0x80 then p else p + 1;
      var r := DecodeEvent(buf, pos, runningStatus);
      && (r.Success? ==> r.value.runningStatus == status)
      && ((r.Success? && status != 0xFF && CommandOf(status) != 0x80 && CommandOf(status) != 0x90)
            ==> r.value.event == None && r.value.next == first)
      && ((r.Success? && r.value.event.Some? && r.value.event.value.Channel?)
            ==> r.value.event.value.note == buf[first] && r.value.next == first + 2
                && r.value.event.value.command == CommandOf(status) && r.value.event.value.channel == ChannelOf(status))
      && ((r.Success? && r.value.event.Some? && r.value.event.value.Meta?)
            ==> r.value.event.value.subtype == buf[first] && status == 0xFF)
  {
  }

  /** A meta event moves the cursor past its subtype byte, its length
      quantity and its whole payload, and is recorded exactly when its
      subtype is 0x01-0x0F, carrying the delta time. */
  lemma MetaEventExtent(buf: seq<byte>, pos: nat, runningStatus: byte)
    requires DecodeVlq(buf, pos).Success?
    requires var p := pos + DecodeVlq(buf, pos).value.length;
      p + 1 < |buf| && buf[p] == 0xFF && DecodeVlq(buf, p + 2).Success?
    ensures var delta := DecodeVlq(buf, pos).value;
      var p := pos + delta.length;
      var len := DecodeVlq(buf, p + 2).value;
      var r := DecodeEvent(buf, pos, runningStatus);
      && r.Success?
      && r.value.next == p + 2 + len.length + len.value
      && (r.value.event.Some? <==> 0x01 <= buf[p + 1] <= 0x0F)
      && (r.value.event.Some? ==> r.value.event.value == Meta(delta.value, buf[p + 1], r.value.event.value.text))
      && ((r.value.event.Some? && p + 2 + len.length + len.value <= |buf|)
            ==> |r.value.event.value.text| == len.value)
  {
  }

  /** An event the reader does not record takes its delta time with it: a
      set-tempo event 10 ticks into the track followed by a lyric at delta 0
      leaves the lyric recorded at delta 0, so anything summing the recorded
      deltas places it 10 ticks early. */
  lemma SkippedEventDropsDelta()
    ensures var buf: seq<byte> := [0x0A, 0xFF, 0x51, 0x03, 0x07, 0xA1, 0x20, 0x00, 0xFF, 0x05, 0x01, 0x61];
      TrackEvents(buf, 0, |buf|) == Success([Meta(0, 0x05, "a")])
  {
    var buf: seq<byte> := [0x0A, 0xFF, 0x51, 0x03, 0x07, 0xA1, 0x20, 0x00, 0xFF, 0x05, 0x01, 0x61];
    assert DecodeVlq(buf, 0) == Success(Vlq(10, 1));
    assert DecodeVlq(buf, 3) == Success(Vlq(3, 1));
    assert DecodeEvent(buf, 0, 0) == Success(Decoded(None, 7, 0xFF));
    assert DecodeVlq(buf, 7) == Success(Vlq(0, 1));
    assert DecodeVlq(buf, 10) == Success(Vlq(1, 1));
    assert DecodeFallback(Slice(buf, 11, 12)) == "a";
    assert DecodeEvent(buf, 7, 0xFF) == Success(Decoded(Some(Meta(0, 0x05, "a")), 12, 0xFF));
    assert TrackFrom(buf, 12, 12, 0xFF, [Meta(0, 0x05, "a")]) == Success([Meta(0, 0x05, "a")]);
    assert TrackFrom(buf, 7, 12, 0xFF, []) == TrackFrom(buf, 12, 12, 0xFF, [] + [Meta(0, 0x05, "a")]);
    assert [] + [Meta(0, 0x05, "a")] == [Meta(0, 0x05, "a")];
    assert TrackFrom(buf, 0, 12, 0, []) == TrackFrom(buf, 7, 12, 0xFF, [] + []);
    assert TrackEvents(buf, 0, |buf|) == TrackFrom(buf, 0, 12, 0, []);
  }

  /** A command other than note-off/note-on consumes none of its data bytes:
      after a program change (0xC0 0x05) the data byte 0x05 is read as a
      delta time and the two-byte delta 0x83 0x60 that follows is read as a
      note-off status, so one note-on at delta 480 comes out as two note-offs. */
  lemma UnhandledCommandMisreadsData()
    ensures var buf: seq<byte> := [0x00, 0xC0, 0x05, 0x83, 0x60, 0x90, 0x3C, 0x64, 0x00];
      TrackEvents(buf, 0, |buf|) == Success([Channel(5, 0x80, 3, 0x60, 0x90), Channel(60, 0x80, 3, 0x64, 0)])
  {
    var buf: seq<byte> := [0x00, 0xC0, 0x05, 0x83, 0x60, 0x90, 0x3C, 0x64, 0x00];
    var first := Channel(5, 0x80, 3, 0x60, 0x90);
    var second := Channel(60, 0x80, 3, 0x64, 0);
    assert DecodeVlq(buf, 0) == Success(Vlq(0, 1));
    assert DecodeEvent(buf, 0, 0) == Success(Decoded(None, 2, 0xC0));
    assert DecodeVlq(buf, 2) == Success(Vlq(5, 1));
    assert DecodeEvent(buf, 2, 0xC0) == Success(Decoded(Some(first), 6, 0x83));
    assert DecodeVlq(buf, 6) == Success(Vlq(60, 1));
    assert DecodeEvent(buf, 6, 0x83) == Success(Decoded(Some(second), 9, 0x83));
    assert TrackFrom(buf, 6, 9, 0x83, [first]) == TrackFrom(buf, 9, 9, 0x83, [first] + [second]);
    assert TrackFrom(buf, 2, 9, 0xC0, []) == TrackFrom(buf, 6, 9, 0x83, [] + [first]);
    var none: seq<TrackEvent> := [];
    assert Recorded(None) == none && none + none == none;
    assert TrackFrom(buf, 0, 9, 0, none) == TrackFrom(buf, 2, 9, 0xC0, none);
    assert [first] + [second] == [first, second];
    assert [] + [first] == [first];
    assert TrackFrom(buf, 9, 9, 0x83, [first, second]) == Success([first, second]);
    assert TrackFrom(buf, 6, 9, 0x83, [first]) == Success([first, second]);
    assert TrackFrom(buf, 2, 9, 0xC0, []) == Success([first, second]);
    assert TrackEvents(buf, 0, |buf|) == TrackFrom(buf, 0, 9, 0, []);
  }
}
