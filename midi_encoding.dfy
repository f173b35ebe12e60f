/** A writer for the events the Standard MIDI File reader records, and the
    proofs that the reader gives back what the writer stored: per event,
    per track (with and without running-status compression) and per file. */
module MidiEncoding {
  import opened Wrappers
  import opened MidiBytes
  import opened MidiText
  import opened MidiParser

  /** An event as it sits in a file: a meta event with its raw payload, or a
      note event with its status byte. */
  datatype StoredEvent =
    | StoredMeta(deltaTime: nat, subtype: byte, payload: seq<byte>)
    | StoredNote(deltaTime: nat, status: byte, note: byte, velocity: byte)

  /** A stored event the reader records and reads back unchanged: a text
      meta event (subtype 0x01-0x0F) or a note-off/note-on event with 7-bit
      data bytes. */
  predicate Writable(e: StoredEvent)
  {
    match e
    case StoredMeta(_, subtype, _) => 0x01 <= subtype <= 0x0F
    case StoredNote(_, status, note, velocity) =>
      (CommandOf(status) == 0x80 || CommandOf(status) == 0x90) && note < 0x80 && velocity < 0x80
  }

  predicate AllWritable(events: seq<StoredEvent>)
  {
    forall i :: 0 <= i < |events| ==> Writable(events[i])
  }

  /** The event the reader makes of a stored event: the payload goes through
      the fallback text map, the status byte is split into its nibbles. */
  function View(e: StoredEvent): TrackEvent
  {
    match e
    case StoredMeta(deltaTime, subtype, payload) => Meta(deltaTime, subtype, DecodeFallback(payload))
    case StoredNote(deltaTime, status, note, velocity) =>
      Channel(deltaTime, CommandOf(status), ChannelOf(status), note, velocity)
  }

  function Views(events: seq<StoredEvent>): (r: seq<TrackEvent>)
    ensures |r| == |events|
  {
    if events == [] then [] else [View(events[0])] + Views(events[1..])
  }

  /** The status byte an event is stored under. */
  function StatusOf(e: StoredEvent): byte
  {
    match e
    case StoredMeta(_, _, _) => 0xFF
    case StoredNote(_, status, _, _) => status
  }

  /** One event's bytes. With `compress`, a note event whose status equals
      the running status omits its status byte. */
  function EncodeEvent(e: StoredEvent, runningStatus: byte, compress: bool): seq<byte>
  {
    match e
    case StoredMeta(deltaTime, subtype, payload) => MetaBytes(deltaTime, subtype, payload)
    case StoredNote(deltaTime, status, note, velocity) =>
      NoteBytes(deltaTime, status, note, velocity, runningStatus, compress)
  }

  /** A track's event bytes. */
  function EncodeEvents(events: seq<StoredEvent>, runningStatus: byte, compress: bool): seq<byte>
  {
    if events == [] then []
    else EncodeEvent(events[0], runningStatus, compress) + EncodeEvents(events[1..], StatusOf(events[0]), compress)
  }

  lemma SubSlice(buf: seq<byte>, pos: nat, whole: seq<byte>, from: nat, to: nat)
    requires pos + |whole| <= |buf| && buf[pos..pos + |whole|] == whole
    requires from <= to <= |whole|
    ensures buf[pos + from..pos + to] == whole[from..to]
  {
    forall i | 0 <= i < to - from ensures buf[pos + from..pos + to][i] == whole[from..to][i] {
      assert buf[pos + from + i] == buf[pos..pos + |whole|][from + i];
    }
  }

  /** Both halves of a concatenation stored at `pos`. */
  lemma Split2(buf: seq<byte>, pos: nat, a: seq<byte>, b: seq<byte>)
    requires pos + |a + b| <= |buf| && buf[pos..pos + |a + b|] == a + b
    ensures buf[pos..pos + |a|] == a
    ensures buf[pos + |a|..pos + |a| + |b|] == b
  {
    SubSlice(buf, pos, a + b, 0, |a|);
    assert (a + b)[..|a|] == a;
    SubSlice(buf, pos, a + b, |a|, |a + b|);
    assert (a + b)[|a|..] == b;
  }

  /** `bytes` sit in `buf` from `pos` on, byte by byte. */
  predicate BytesAt(buf: seq<byte>, pos: nat, bytes: seq<byte>)
    decreases |bytes|
  {
    if bytes == [] then pos <= |buf|
    else pos < |buf| && buf[pos] == bytes[0] && BytesAt(buf, pos + 1, bytes[1..])
  }

  lemma {:induction false} BytesAtSlice(buf: seq<byte>, pos: nat, bytes: seq<byte>)
    ensures BytesAt(buf, pos, bytes) <==> pos + |bytes| <= |buf| && buf[pos..pos + |bytes|] == bytes
    decreases |bytes|
  {
    if bytes != [] {
      BytesAtSlice(buf, pos + 1, bytes[1..]);
      if pos + |bytes| <= |buf| {
        var s := buf[pos..pos + |bytes|];
        assert s[0] == buf[pos] && s[1..] == buf[pos + 1..pos + |bytes|];
        assert s == [s[0]] + s[1..] && bytes == [bytes[0]] + bytes[1..];
      }
    }
  }

  lemma {:induction false} BytesAtAppend(buf: seq<byte>, pos: nat, a: seq<byte>, b: seq<byte>)
    ensures BytesAt(buf, pos, a + b) <==> BytesAt(buf, pos, a) && BytesAt(buf, pos + |a|, b)
    decreases |a|
  {
    if a == [] {
      assert a + b == b;
      BytesAtSlice(buf, pos, b);
    } else {
      assert (a + b)[0] == a[0] && (a + b)[1..] == a[1..] + b;
      BytesAtAppend(buf, pos + 1, a[1..], b);
    }
  }

  /** A stored quantity decodes to its value and length. */
  lemma VlqAt(buf: seq<byte>, pos: nat, v: nat)
    requires BytesAt(buf, pos, EncodeVlq(v))
    ensures DecodeVlq(buf, pos) == Success(Vlq(v, |EncodeVlq(v)|))
  {
    BytesAtSlice(buf, pos, EncodeVlq(v));
    VlqRoundTrip(buf, pos, v);
  }

  lemma PairAt(buf: seq<byte>, pos: nat, a: byte, b: byte)
    requires BytesAt(buf, pos, [a, b])
    ensures pos + 2 <= |buf| && buf[pos] == a && buf[pos + 1] == b
  {
    BytesAtSlice(buf, pos, [a, b]);
    assert buf[pos] == buf[pos..pos + 2][0] && buf[pos + 1] == buf[pos..pos + 2][1];
  }

  /** The note event bytes the writer stores. */
  function NoteBytes(deltaTime: nat, status: byte, note: byte, velocity: byte, runningStatus: byte, compress: bool)
    : seq<byte>
  {
    EncodeVlq(deltaTime) + (if compress && status == runningStatus then [] else [status]) + [note, velocity]
  }

  /** The meta event bytes the writer stores. */
  function MetaBytes(deltaTime: nat, subtype: byte, payload: seq<byte>): seq<byte>
  {
    EncodeVlq(deltaTime) + [0xFF, subtype] + EncodeVlq(|payload|) + payload
  }

  /** What the reader sees in the three parts of a stored note event: the
      delta time, the status byte unless running status makes it implicit,
      and the two data bytes. */
  lemma NoteParts(buf: seq<byte>, pos: nat, deltaTime: nat, status: byte, note: byte, velocity: byte,
                  runningStatus: byte, compress: bool)
    requires BytesAt(buf, pos, NoteBytes(deltaTime, status, note, velocity, runningStatus, compress))
    ensures var v := EncodeVlq(deltaTime);
      var q := if compress && status == runningStatus then pos + |v| else pos + |v| + 1;
      && |NoteBytes(deltaTime, status, note, velocity, runningStatus, compress)| == q + 2 - pos
      && DecodeVlq(buf, pos) == Success(Vlq(deltaTime, |v|))
      && q + 2 <= |buf|
      && (q == pos + |v| + 1 ==> buf[pos + |v|] == status)
      && buf[q] == note && buf[q + 1] == velocity
  {
    var v := EncodeVlq(deltaTime);
    var s: seq<byte> := if compress && status == runningStatus then [] else [status];
    BytesAtAppend(buf, pos, v + s, [note, velocity]);
    BytesAtAppend(buf, pos, v, s);
    VlqAt(buf, pos, deltaTime);
    PairAt(buf, pos + |v| + |s|, note, velocity);
  }

  /** The reader's step over a note event whose parts sit at the given places. */
  lemma DecodeNoteStep(buf: seq<byte>, pos: nat, runningStatus: byte, delta: Vlq, status: byte, q: nat)
    requires DecodeVlq(buf, pos) == Success(delta)
    requires CommandOf(status) == 0x80 || CommandOf(status) == 0x90
    requires q == pos + delta.length || q == pos + delta.length + 1
    requires q + 2 <= |buf| && buf[q] < 0x80
    requires q == pos + delta.length ==> runningStatus == status
    requires q == pos + delta.length + 1 ==> buf[pos + delta.length] == status
    ensures DecodeEvent(buf, pos, runningStatus)
         == Success(Decoded(Some(Channel(delta.value, CommandOf(status), ChannelOf(status), buf[q], buf[q + 1])), q + 2, status))
  {
  }

  lemma DecodeStoredNote(buf: seq<byte>, pos: nat, deltaTime: nat, status: byte, note: byte, velocity: byte,
                         runningStatus: byte, compress: bool)
    requires CommandOf(status) == 0x80 || CommandOf(status) == 0x90
    requires note < 0x80
    requires BytesAt(buf, pos, NoteBytes(deltaTime, status, note, velocity, runningStatus, compress))
    ensures DecodeEvent(buf, pos, runningStatus)
         == Success(Decoded(Some(Channel(deltaTime, CommandOf(status), ChannelOf(status), note, velocity)),
                            pos + |NoteBytes(deltaTime, status, note, velocity, runningStatus, compress)|, status))
  {
    NoteParts(buf, pos, deltaTime, status, note, velocity, runningStatus, compress);
    var v := EncodeVlq(deltaTime);
    var q := if compress && status == runningStatus then pos + |v| else pos + |v| + 1;
    DecodeNoteStep(buf, pos, runningStatus, Vlq(deltaTime, |v|), status, q);
  }

  /** The reader's step over a meta event whose parts sit at the given places. */
  lemma DecodeMetaStep(buf: seq<byte>, pos: nat, runningStatus: byte, deltaTime: nat, deltaLength: nat, subtype: byte,
                       payload: seq<byte>, lengthLength: nat)
    requires DecodeVlq(buf, pos) == Success(Vlq(deltaTime, deltaLength))
    requires pos + deltaLength + 1 < |buf| && buf[pos + deltaLength] == 0xFF
    requires buf[pos + deltaLength + 1] == subtype && 0x01 <= subtype <= 0x0F
    requires DecodeVlq(buf, pos + deltaLength + 2) == Success(Vlq(|payload|, lengthLength))
    requires Slice(buf, pos + deltaLength + 2 + lengthLength, pos + deltaLength + 2 + lengthLength + |payload|) == payload
    ensures DecodeEvent(buf, pos, runningStatus)
         == Success(Decoded(Some(Meta(deltaTime, subtype, DecodeFallback(payload))),
                            pos + deltaLength + 2 + lengthLength + |payload|, 0xFF))
  {
  }

  /** What the reader sees in the four parts of a stored meta event: the
      delta time, 0xFF and the subtype, the length and the payload. */
  lemma MetaParts(buf: seq<byte>, pos: nat, deltaTime: nat, subtype: byte, payload: seq<byte>)
    requires BytesAt(buf, pos, MetaBytes(deltaTime, subtype, payload))
    ensures var v := EncodeVlq(deltaTime);
      var l := EncodeVlq(|payload|);
      var textStart := pos + |v| + 2 + |l|;
      && |MetaBytes(deltaTime, subtype, payload)| == |v| + 2 + |l| + |payload|
      && DecodeVlq(buf, pos) == Success(Vlq(deltaTime, |v|))
      && pos + |v| + 1 < |buf| && buf[pos + |v|] == 0xFF && buf[pos + |v| + 1] == subtype
      && DecodeVlq(buf, pos + |v| + 2) == Success(Vlq(|payload|, |l|))
      && Slice(buf, textStart, textStart + |payload|) == payload
  {
    var v := EncodeVlq(deltaTime);
    var h: seq<byte> := [0xFF, subtype];
    var l := EncodeVlq(|payload|);
    BytesAtAppend(buf, pos, v + h + l, payload);
    BytesAtAppend(buf, pos, v + h, l);
    BytesAtAppend(buf, pos, v, h);
    VlqAt(buf, pos, deltaTime);
    PairAt(buf, pos + |v|, 0xFF, subtype);
    VlqAt(buf, pos + |v| + 2, |payload|);
    BytesAtSlice(buf, pos + |v| + 2 + |l|, payload);
  }

  lemma DecodeStoredMeta(buf: seq<byte>, pos: nat, deltaTime: nat, subtype: byte, payload: seq<byte>, runningStatus: byte)
    requires 0x01 <= subtype <= 0x0F
    requires BytesAt(buf, pos, MetaBytes(deltaTime, subtype, payload))
    ensures DecodeEvent(buf, pos, runningStatus)
         == Success(Decoded(Some(Meta(deltaTime, subtype, DecodeFallback(payload))),
                            pos + |MetaBytes(deltaTime, subtype, payload)|, 0xFF))
  {
    MetaParts(buf, pos, deltaTime, subtype, payload);
    DecodeMetaStep(buf, pos, runningStatus, deltaTime, |EncodeVlq(deltaTime)|, subtype, payload, |EncodeVlq(|payload|)|);
  }

  /** Event round trip: the reader decodes a stored event back to its view,
      leaves the cursor just after it and leaves the event's status as the
      running status. */
  lemma DecodeEncodedEvent(buf: seq<byte>, pos: nat, e: StoredEvent, runningStatus: byte, compress: bool)
    requires Writable(e)
    requires BytesAt(buf, pos, EncodeEvent(e, runningStatus, compress))
    ensures DecodeEvent(buf, pos, runningStatus)
         == Success(Decoded(Some(View(e)), pos + |EncodeEvent(e, runningStatus, compress)|, StatusOf(e)))
  {
    match e
    case StoredMeta(deltaTime, subtype, payload) =>
      DecodeStoredMeta(buf, pos, deltaTime, subtype, payload, runningStatus);
    case StoredNote(deltaTime, status, note, velocity) =>
      DecodeStoredNote(buf, pos, deltaTime, status, note, velocity, runningStatus, compress);
  }

  lemma TrackFromStep(buf: seq<byte>, pos: nat, end: nat, runningStatus: byte, acc: seq<TrackEvent>, d: Decoded)
    requires pos < end
    requires DecodeEvent(buf, pos, runningStatus) == Success(d)
    ensures TrackFrom(buf, pos, end, runningStatus, acc) == TrackFrom(buf, d.next, end, d.runningStatus, acc + Recorded(d.event))
  {
  }

  /** The walk over a buffer holding a stored event at `pos` records that
      event's view and resumes just after it with the event's status. */
  lemma EncodedStep(buf: seq<byte>, pos: nat, next: nat, end: nat, e: StoredEvent, runningStatus: byte, compress: bool,
                    acc: seq<TrackEvent>)
    requires Writable(e)
    requires next == pos + |EncodeEvent(e, runningStatus, compress)| <= end
    requires BytesAt(buf, pos, EncodeEvent(e, runningStatus, compress))
    ensures TrackFrom(buf, pos, end, runningStatus, acc) == TrackFrom(buf, next, end, StatusOf(e), acc + [View(e)])
  {
    DecodeEncodedEvent(buf, pos, e, runningStatus, compress);
    TrackFromStep(buf, pos, end, runningStatus, acc, Decoded(Some(View(e)), next, StatusOf(e)));
  }

  /** `events` are stored one after another from `pos`, the last ending
      exactly at `end`, each under the status its predecessor left behind. */
  predicate StoredAt(buf: seq<byte>, pos: nat, end: nat, events: seq<StoredEvent>, runningStatus: byte, compress: bool)
    decreases |events|
  {
    if events == [] then pos == end
    else
      && BytesAt(buf, pos, EncodeEvent(events[0], runningStatus, compress))
      && StoredAt(buf, pos + |EncodeEvent(events[0], runningStatus, compress)|, end, events[1..], StatusOf(events[0]), compress)
  }

  /** The bytes the writer produced for a track satisfy StoredAt. */
  lemma {:induction false} EncodedStored(buf: seq<byte>, pos: nat, end: nat, events: seq<StoredEvent>, runningStatus: byte,
                                         compress: bool)
    requires end == pos + |EncodeEvents(events, runningStatus, compress)|
    requires BytesAt(buf, pos, EncodeEvents(events, runningStatus, compress))
    ensures StoredAt(buf, pos, end, events, runningStatus, compress)
    decreases |events|
  {
    if events != [] {
      var first := EncodeEvent(events[0], runningStatus, compress);
      var rest := EncodeEvents(events[1..], StatusOf(events[0]), compress);
      BytesAtAppend(buf, pos, first, rest);
      EncodedStored(buf, pos + |first|, end, events[1..], StatusOf(events[0]), compress);
    }
  }

  lemma AppendCons<T>(acc: seq<T>, x: T, rest: seq<T>)
    ensures acc + [x] + rest == acc + ([x] + rest)
  {
  }

  lemma AppendEmpty<T>(s: seq<T>)
    ensures [] + s == s
  {
  }

  lemma {:induction false} StoredEnd(buf: seq<byte>, pos: nat, end: nat, events: seq<StoredEvent>, runningStatus: byte,
                                     compress: bool)
    requires StoredAt(buf, pos, end, events, runningStatus, compress)
    ensures pos <= end
    decreases |events|
  {
    if events != [] {
      StoredEnd(buf, pos + |EncodeEvent(events[0], runningStatus, compress)|, end, events[1..], StatusOf(events[0]), compress);
    }
  }

  /** The track walk over stored events records exactly their views. */
  lemma {:induction false} DecodeStored(
    buf: seq<byte>, pos: nat, end: nat, events: seq<StoredEvent>, runningStatus: byte, compress: bool, acc: seq<TrackEvent>)
    requires AllWritable(events)
    requires StoredAt(buf, pos, end, events, runningStatus, compress)
    ensures TrackFrom(buf, pos, end, runningStatus, acc) == Success(acc + Views(events))
    decreases |events|
  {
    if events == [] {
      assert acc + Views(events) == acc;
    } else {
      var e := events[0];
      var next := pos + |EncodeEvent(e, runningStatus, compress)|;
      StoredEnd(buf, next, end, events[1..], StatusOf(e), compress);
      EncodedStep(buf, pos, next, end, e, runningStatus, compress, acc);
      DecodeStored(buf, next, end, events[1..], StatusOf(e), compress, acc + [View(e)]);
      AppendCons(acc, View(e), Views(events[1..]));
    }
  }

  /** The events stored from `start` read back as their views. */
  lemma StoredTrack(buf: seq<byte>, start: nat, events: seq<StoredEvent>, compress: bool)
    requires AllWritable(events)
    requires BytesAt(buf, start, EncodeEvents(events, 0, compress))
    ensures TrackEvents(buf, start, |EncodeEvents(events, 0, compress)|) == Success(Views(events))
  {
    var end := start + |EncodeEvents(events, 0, compress)|;
    EncodedStored(buf, start, end, events, 0, compress);
    DecodeStored(buf, start, end, events, 0, compress, []);
    AppendEmpty(Views(events));
  }

  /** Track round trip: reading the bytes written for a track gives back the
      views of its events, whether or not running status was used to drop
      repeated status bytes. */
  lemma TrackRoundTrip(events: seq<StoredEvent>, compress: bool)
    requires AllWritable(events)
    ensures var enc := EncodeEvents(events, 0, compress);
      TrackEvents(enc, 0, |enc|) == Success(Views(events))
  {
    var enc := EncodeEvents(events, 0, compress);
    BytesAtWhole(enc);
    StoredTrack(enc, 0, events, compress);
  }

  /** Running status is transparent: a track whose repeated status bytes
      are omitted decodes exactly like the same track written out in full. */
  lemma RunningStatusTransparent(events: seq<StoredEvent>)
    requires AllWritable(events)
    ensures var short := EncodeEvents(events, 0, true);
      var full := EncodeEvents(events, 0, false);
      TrackEvents(short, 0, |short|) == TrackEvents(full, 0, |full|) == Success(Views(events))
  {
    TrackRoundTrip(events, true);
    TrackRoundTrip(events, false);
  }

  /** A text meta event written with the Windows-1251 bytes of its text reads
      back with that text, for text made of ASCII and the letters А-я. */
  lemma MetaTextRoundTrip(deltaTime: nat, subtype: byte, text: string)
    requires forall i :: 0 <= i < |text| ==> Encodable(text[i])
    ensures View(StoredMeta(deltaTime, subtype, EncodeText(text))) == Meta(deltaTime, subtype, text)
  {
    TextRoundTrip(text);
  }

  /** The chunk id "MThd" as bytes. */
  const HeaderId: seq<byte> := [0x4D, 0x54, 0x68, 0x64]

  /** The chunk id "MTrk" as bytes. */
  const TrackId: seq<byte> := [0x4D, 0x54, 0x72, 0x6B]

  predicate FitsChunks(tracks: seq<seq<StoredEvent>>, compress: bool)
  {
    forall t :: 0 <= t < |tracks| ==>
      AllWritable(tracks[t]) && |EncodeEvents(tracks[t], 0, compress)| < 0x1_0000_0000
  }

  function TrackViews(tracks: seq<seq<StoredEvent>>): (r: seq<seq<TrackEvent>>)
    ensures |r| == |tracks|
  {
    if tracks == [] then [] else [Views(tracks[0])] + TrackViews(tracks[1..])
  }

  /** The track chunks of a file, one "MTrk" chunk per track. */
  function EncodeTracks(tracks: seq<seq<StoredEvent>>, compress: bool): seq<byte>
  {
    if tracks == [] then []
    else
      var body := EncodeEvents(tracks[0], 0, compress);
      TrackId + U32Bytes(|body|) + body + EncodeTracks(tracks[1..], compress)
  }

  /** The header chunk a file starts with. */
  function EncodeHeader(format: nat, numTracks: nat, timeDivision: nat): seq<byte>
  {
    HeaderId + U32Bytes(6) + U16Bytes(format) + U16Bytes(numTracks) + U16Bytes(timeDivision)
  }

  /** A whole file: the six-byte header chunk, then the track chunks. */
  function EncodeFile(format: nat, timeDivision: nat, tracks: seq<seq<StoredEvent>>, compress: bool): seq<byte>
  {
    EncodeHeader(format, |tracks|, timeDivision) + EncodeTracks(tracks, compress)
  }

  /** The chunk header of a stored track: "MTrk" and its body's length. */
  lemma ChunkHeader(buf: seq<byte>, pos: nat, len: nat)
    requires len < 0x1_0000_0000
    requires BytesAt(buf, pos, TrackId + U32Bytes(len))
    ensures ParseChunk(buf, pos) == Success(Chunk("MTrk", len))
  {
    BytesAtSlice(buf, pos, TrackId + U32Bytes(len));
    Split2(buf, pos, TrackId, U32Bytes(len));
    ReadU32RoundTrip(buf, pos + 4, len);
    assert buf[pos..pos + 4][0] == buf[pos] && buf[pos..pos + 4][1] == buf[pos + 1];
    assert buf[pos..pos + 4][2] == buf[pos + 2] && buf[pos..pos + 4][3] == buf[pos + 3];
  }

  /** A stored track chunk reads back as its header and its events' views. */
  lemma ChunkRoundTrip(buf: seq<byte>, pos: nat, events: seq<StoredEvent>, compress: bool)
    requires AllWritable(events) && |EncodeEvents(events, 0, compress)| < 0x1_0000_0000
    requires var body := EncodeEvents(events, 0, compress);
      BytesAt(buf, pos, TrackId + U32Bytes(|body|) + body)
    ensures var len := |EncodeEvents(events, 0, compress)|;
      && ParseChunk(buf, pos) == Success(Chunk("MTrk", len))
      && TrackEvents(buf, pos + 8, len) == Success(Views(events))
  {
    var body := EncodeEvents(events, 0, compress);
    BytesAtAppend(buf, pos, TrackId + U32Bytes(|body|), body);
    ChunkHeader(buf, pos, |body|);
    StoredTrack(buf, pos + 8, events, compress);
  }

  /** The chunk walk steps over a stored track chunk, recording its events' views. */
  lemma TracksStep(buf: seq<byte>, pos: nat, next: nat, count: nat, acc: seq<seq<TrackEvent>>, events: seq<StoredEvent>,
                   compress: bool)
    requires 0 < count
    requires AllWritable(events) && |EncodeEvents(events, 0, compress)| < 0x1_0000_0000
    requires next == pos + 8 + |EncodeEvents(events, 0, compress)|
    requires var body := EncodeEvents(events, 0, compress);
      BytesAt(buf, pos, TrackId + U32Bytes(|body|) + body)
    ensures TracksFrom(buf, pos, count, acc) == TracksFrom(buf, next, count - 1, acc + [Views(events)])
  {
    ChunkRoundTrip(buf, pos, events, compress);
  }

  /** The chunk walk over `count` stored tracks from `pos` reads them all back. */
  lemma {:induction false} DecodeEncodedTracks(
    buf: seq<byte>, pos: nat, count: nat, tracks: seq<seq<StoredEvent>>, compress: bool, acc: seq<seq<TrackEvent>>)
    requires count == |tracks|
    requires FitsChunks(tracks, compress)
    requires BytesAt(buf, pos, EncodeTracks(tracks, compress))
    ensures TracksFrom(buf, pos, count, acc) == Success(acc + TrackViews(tracks))
    decreases count
  {
    if tracks == [] {
      assert acc + TrackViews(tracks) == acc;
    } else {
      var body := EncodeEvents(tracks[0], 0, compress);
      var chunk := TrackId + U32Bytes(|body|) + body;
      var rest := EncodeTracks(tracks[1..], compress);
      var next := pos + |chunk|;
      assert |chunk| == 8 + |body|;
      BytesAtAppend(buf, pos, chunk, rest);
      TracksStep(buf, pos, next, count, acc, tracks[0], compress);
      DecodeEncodedTracks(buf, next, count - 1, tracks[1..], compress, acc + [Views(tracks[0])]);
      AppendCons(acc, Views(tracks[0]), TrackViews(tracks[1..]));
    }
  }

  /** The reader finds "MThd" with length 6 and the three fields in a
      stored header chunk. */
  lemma HeaderRoundTrip(buf: seq<byte>, format: nat, numTracks: nat, timeDivision: nat)
    requires format < 0x1_0000 && numTracks < 0x1_0000 && timeDivision < 0x1_0000
    requires BytesAt(buf, 0, EncodeHeader(format, numTracks, timeDivision))
    ensures 14 <= |buf|
    ensures ParseChunk(buf, 0) == Success(Chunk("MThd", 6))
    ensures ReadU16(buf, 8) == Success(format)
    ensures ReadU16(buf, 10) == Success(numTracks)
    ensures ReadU16(buf, 12) == Success(timeDivision)
  {
    BytesAtSlice(buf, 0, EncodeHeader(format, numTracks, timeDivision));
    var chunk := HeaderId + U32Bytes(6);
    Split2(buf, 0, chunk + U16Bytes(format) + U16Bytes(numTracks), U16Bytes(timeDivision));
    Split2(buf, 0, chunk + U16Bytes(format), U16Bytes(numTracks));
    Split2(buf, 0, chunk, U16Bytes(format));
    Split2(buf, 0, HeaderId, U32Bytes(6));
    ReadU32RoundTrip(buf, 4, 6);
    ReadU16RoundTrip(buf, 8, format);
    ReadU16RoundTrip(buf, 10, numTracks);
    ReadU16RoundTrip(buf, 12, timeDivision);
    assert buf[0..4][0] == buf[0] && buf[0..4][1] == buf[1] && buf[0..4][2] == buf[2] && buf[0..4][3] == buf[3];
  }

  /** A sequence sits in itself from position 0. */
  lemma BytesAtWhole(buf: seq<byte>)
    ensures BytesAt(buf, 0, buf)
  {
    assert buf[0..|buf|] == buf;
    BytesAtSlice(buf, 0, buf);
  }

  /** What parse returns for a buffer whose header and track chunks read as given. */
  lemma ParseFileOf(buf: seq<byte>, format: nat, numTracks: nat, timeDivision: nat, tracks: seq<seq<TrackEvent>>)
    requires 14 <= |buf|
    requires ParseChunk(buf, 0) == Success(Chunk("MThd", 6))
    requires ReadU16(buf, 8) == Success(format)
    requires ReadU16(buf, 10) == Success(numTracks)
    requires ReadU16(buf, 12) == Success(timeDivision)
    requires TracksFrom(buf, 14, numTracks, []) == Success(tracks)
    ensures ParseFile(buf) == Success(ParsedMidi(format, numTracks, timeDivision, tracks))
  {
  }

  /** File round trip: parsing a written file gives back its format, its
      track count, its time division and the views of every track's events. */
  lemma FileRoundTrip(format: nat, timeDivision: nat, tracks: seq<seq<StoredEvent>>, compress: bool)
    requires format < 0x1_0000 && timeDivision < 0x1_0000 && |tracks| < 0x1_0000
    requires FitsChunks(tracks, compress)
    ensures ParseFile(EncodeFile(format, timeDivision, tracks, compress))
         == Success(ParsedMidi(format, |tracks|, timeDivision, TrackViews(tracks)))
  {
    var buf := EncodeFile(format, timeDivision, tracks, compress);
    var header := EncodeHeader(format, |tracks|, timeDivision);
    BytesAtWhole(buf);
    BytesAtAppend(buf, 0, header, EncodeTracks(tracks, compress));
    HeaderRoundTrip(buf, format, |tracks|, timeDivision);
    DecodeEncodedTracks(buf, |header|, |tracks|, tracks, compress, []);
    AppendEmpty(TrackViews(tracks));
    ParseFileOf(buf, format, |tracks|, timeDivision, TrackViews(tracks));
  }
}
