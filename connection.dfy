/**
 * ShoutHandler: one client connection.  Its fields are those of shout.py;
 * `trace` records every send() in order and `read` (ghost) every byte read
 * from audio files.  send() is total: the whole requested slice is recorded.
 */
module Shout {
  import opened Wrappers
  import opened ShoutConstants
  import opened Tracks
  import opened IcyMetadata
  import opened StreamTrace

  /** Whether opening the next entry raises from make_metadata (line 123). */
  predicate OpenRaises(songs: seq<Entry>)
  {
    songs != [] && songs[0].Track? && MakeMetadata(songs[0].tag).Err?
  }

  /** How many buffered bytes one write sends: up to the metadata boundary. */
  function SendCount(data: seq<byte>, bytesToMetadata: int): nat
    requires bytesToMetadata >= 0
  {
    Min(|data|, bytesToMetadata)
  }

  /** Sending the first n buffered bytes moves them from the buffer to the committed audio. */
  lemma SendPrefix(t: seq<Event>, data: seq<byte>, read: seq<byte>, n: nat)
    requires Committed(t) + data == read && n <= |data|
    ensures Committed(t + [Audio(data[..n])]) + data[n..] == read
  {
    Snoc(t, Audio(data[..n]));
    assert data[..n] + data[n..] == data;
  }

  /** The invariant of a connection, on the values of its fields. */
  ghost predicate Inv(trace: seq<Event>, response: bool, wants: bool, counter: int,
                      s: Feed, data: seq<byte>, read: seq<byte>)
  {
    && TraceOk(trace, response, wants, counter)
    && ValidFeed(s)
    && |data| < MinimumBytesInBuffer + ChunksInBuffer * ChunkSize
    && (!response ==> data == [])
    && (!s.id3Bound ==> s.fd.None? && data == [] && counter == ChunkSize)
    && Committed(trace) + data == read
  }

  /** One streaming handle_write on values: the sends it makes, the new
      counter, the new buffer, the bytes it read from the file, the new feed. */
  datatype WriteStep = WriteStep(events: seq<Event>, counter: int, data: seq<byte>, fetched: seq<byte>, feed: Feed)

  /** Dropping the sent prefix, and refill_buffer when too little is left. */
  function TrimAndRefill(events: seq<Event>, counter: int, rest: seq<byte>, s: Feed): (r: WriteStep)
    requires ValidFeed(s)
    ensures r.events == events && r.counter == counter
    ensures |rest| >= MinimumBytesInBuffer ==> r.data == rest && r.fetched == [] && r.feed == s
    ensures |rest| < MinimumBytesInBuffer ==>
      r.fetched == ReadAhead(s.fd) && r.data == rest + r.fetched && r.feed == AfterRefill(s)
  {
    if |rest| < MinimumBytesInBuffer then
      WriteStep(events, counter, rest + ReadAhead(s.fd), ReadAhead(s.fd), AfterRefill(s))
    else
      WriteStep(events, counter, rest, [], s)
  }

  /** Whether a write with this buffer and counter reaches the metadata point. */
  predicate MetaDue(data: seq<byte>, counter: int, wants: bool)
    requires counter >= 0
  {
    SendCount(data, counter) == counter && wants
  }

  /**
   * A streaming handle_write: send the buffer up to the metadata boundary;
   * at the boundary (with metadata on) reset the counter and send a block,
   * or, when make_metadata raises, stop there with the buffer untouched;
   * otherwise trim and refill.
   */
  function AudioWrite(data: seq<byte>, counter: int, wants: bool, s: Feed): (r: WriteStep)
    requires counter >= 0 && ValidFeed(s)
    ensures 1 <= |r.events| <= 2 && r.events[0].Audio? && |r.events[0].bytes| <= counter
    ensures 0 <= r.counter && (counter <= ChunkSize ==> r.counter <= ChunkSize)
    ensures ValidFeed(r.feed) && (r.feed == s || r.feed == AfterRefill(s))
    ensures r.fetched == [] || r.fetched == ReadAhead(s.fd)
  {
    var n := SendCount(data, counter);
    var audio := Audio(data[..n]);
    if MetaDue(data, counter, wants) then
      var meta := MakeMetadata(s.id3);
      if meta.Err? then WriteStep([audio, MetaFailed], ChunkSize, data, [], s)
      else TrimAndRefill([audio, Meta(meta.value)], ChunkSize, data[n..], s)
    else
      TrimAndRefill([audio], counter - n, data[n..], s)
  }

  /** Trimming and refilling keeps the invariant, the buffer bound included. */
  lemma TrimAndRefillKeepsInv(t: seq<Event>, wants: bool, counter: int, s: Feed, rest: seq<byte>, read: seq<byte>,
                              events: seq<Event>)
    requires Inv(t, true, wants, counter, s, rest, read)
    ensures var r := TrimAndRefill(events, counter, rest, s);
      Inv(t, true, wants, counter, r.feed, r.data, read + r.fetched)
  {
    var r := TrimAndRefill(events, counter, rest, s);
    assert Committed(t) + r.data == read + r.fetched;
  }

  /** A streaming write keeps the connection invariant, and it only builds a
      metadata block once a file has been opened (the id3 attribute exists). */
  lemma AudioWriteKeepsInv(t: seq<Event>, wants: bool, counter: int, s: Feed, data: seq<byte>, read: seq<byte>)
    requires Inv(t, true, wants, counter, s, data, read)
    ensures MetaDue(data, counter, wants) ==> s.id3Bound
    ensures var r := AudioWrite(data, counter, wants, s);
      Inv(t + r.events, true, wants, r.counter, r.feed, r.data, read + r.fetched)
  {
    var n := SendCount(data, counter);
    var chunk := data[..n];
    var t1 := t + [Audio(chunk)];
    SendPrefix(t, data, read, n);
    TraceAudio(t, wants, counter, chunk);
    if MetaDue(data, counter, wants) {
      var meta := MakeMetadata(s.id3);
      if meta.Err? {
        TraceMark(t1, MetaFailed);
        CommittedRetract(t, chunk);
        assert t + [Audio(chunk), MetaFailed] == t1 + [MetaFailed];
      } else {
        var t2 := t1 + [Meta(meta.value)];
        TraceMark(t1, Meta(meta.value));
        assert Inv(t2, true, wants, ChunkSize, s, data[n..], read);
        TrimAndRefillKeepsInv(t2, wants, ChunkSize, s, data[n..], read, [Audio(chunk), Meta(meta.value)]);
        assert t2 == t + [Audio(chunk), Meta(meta.value)];
      }
    } else {
      assert Inv(t1, true, wants, counter - n, s, data[n..], read);
      TrimAndRefillKeepsInv(t1, wants, counter - n, s, data[n..], read, [Audio(chunk)]);
    }
  }

  /** Every streaming write first sends the buffer's prefix up to the
      boundary, then at most one metadata point, exactly when it is due; unless
      the block failed, the buffer then starts with what was left of the old one. */
  lemma WriteSendsPrefix(data: seq<byte>, counter: int, wants: bool, s: Feed)
    requires 0 <= counter && ValidFeed(s)
    ensures var r := AudioWrite(data, counter, wants, s);
      var n := Min(|data|, counter);
      1 <= |r.events| <= 2 && r.events[0] == Audio(data[..n]) &&
      (|r.events| == 2 <==> MetaDue(data, counter, wants)) &&
      (|r.events| == 2 ==> r.events[1].IsMark() && r.counter == ChunkSize) &&
      (|r.events| == 1 ==> r.counter == counter - n) &&
      (r.events != [Audio(data[..n]), MetaFailed] ==> |data| - n <= |r.data| && r.data[..|data| - n] == data[n..])
  {
  }

  /** With metadata off, once the counter reaches 0 every write sends an
      empty slice and nothing else changes. */
  lemma StallsWithoutMetadata(data: seq<byte>, s: Feed)
    requires ValidFeed(s)
    ensures var r := AudioWrite(data, 0, false, s);
      r.events == [Audio([])] && r.counter == 0 && r.data[..|data|] == data &&
      (|data| >= MinimumBytesInBuffer ==> r.feed == s)
  {
    assert data[0..] == data;
  }

  /** A write below the boundary sends the whole buffer or the whole
      remaining counter, whichever is smaller, and lowers the counter by that much. */
  lemma WriteBelowBoundary(data: seq<byte>, counter: int, wants: bool, s: Feed)
    requires 0 <= counter && ValidFeed(s) && !MetaDue(data, counter, wants)
    ensures var r := AudioWrite(data, counter, wants, s);
      r.events == [Audio(data[..Min(|data|, counter)])] &&
      r.counter == counter - Min(|data|, counter) &&
      r.data[..|data| - Min(|data|, counter)] == data[Min(|data|, counter)..]
  {
  }

  /** At the boundary, with metadata on and the title encodable, the write
      sends the rest of the counter's audio and then the block, and resets the counter. */
  lemma BlockAtBoundary(data: seq<byte>, counter: int, s: Feed)
    requires 0 <= counter && ValidFeed(s) && MetaDue(data, counter, true) && MakeMetadata(s.id3).Ok?
    ensures var r := AudioWrite(data, counter, true, s);
      r.events == [Audio(data[..counter]), Meta(MakeMetadata(s.id3).value)] &&
      r.counter == ChunkSize && r.data[..|data| - counter] == data[counter..]
  {
  }

  /** A failed metadata block leaves the buffer and counter so that the next
      write sends the same slice again, from the start of the buffer. */
  lemma FailedBlockResends(data: seq<byte>, counter: int, s: Feed)
    requires 0 <= counter && ValidFeed(s) && MetaDue(data, counter, true) && MakeMetadata(s.id3).Err?
    ensures var r := AudioWrite(data, counter, true, s);
      r.events == [Audio(data[..counter]), MetaFailed] &&
      r.data == data && r.counter == ChunkSize && r.feed == s && r.fetched == []
  {
  }

  /** A failed block is a fixed point of the streaming write: with a full
      chunk buffered, the next write fails again on the same state. */
  lemma StuckOnFailedBlock(data: seq<byte>, s: Feed)
    requires ValidFeed(s) && |data| >= ChunkSize && MakeMetadata(s.id3).Err?
    ensures AudioWrite(data, ChunkSize, true, s) ==
      WriteStep([Audio(data[..ChunkSize]), MetaFailed], ChunkSize, data, [], s)
  {
  }

  /** The sends of k successive streaming writes with no read in between. */
  function Writes(k: nat, data: seq<byte>, counter: int, wants: bool, s: Feed): seq<Event>
    requires counter >= 0 && ValidFeed(s)
    decreases k
  {
    if k == 0 then []
    else
      var r := AudioWrite(data, counter, wants, s);
      r.events + Writes(k - 1, r.data, r.counter, wants, r.feed)
  }

  function Repeated(k: nat, block: seq<Event>): seq<Event>
    decreases k
  {
    if k == 0 then [] else block + Repeated(k - 1, block)
  }

  /** Once a block fails with a full chunk buffered, every later write sends
      the same slice and fails again: the stream never moves on. */
  lemma {:induction false} FailedBlockRepeatsForever(k: nat, data: seq<byte>, s: Feed)
    requires ValidFeed(s) && |data| >= ChunkSize && MakeMetadata(s.id3).Err?
    ensures Writes(k, data, ChunkSize, true, s) == Repeated(k, [Audio(data[..ChunkSize]), MetaFailed])
    decreases k
  {
    if k > 0 {
      StuckOnFailedBlock(data, s);
      FailedBlockRepeatsForever(k - 1, data, s);
    }
  }

  /** A refill can take the buffer past the 1M the comment on line 163
      expects: one byte short of the minimum, plus a full read-ahead. */
  lemma BufferPassesOneMiB(events: seq<Event>, counter: int, rest: seq<byte>, s: Feed)
    requires ValidFeed(s) && s.fd.Some? && !HitsEof(s.fd.value)
    requires |rest| == MinimumBytesInBuffer - 1
    ensures |TrimAndRefill(events, counter, rest, s).data| == MinimumBytesInBuffer - 1 + ChunksInBuffer * ChunkSize
    ensures |TrimAndRefill(events, counter, rest, s).data| > 1024 * 1024
  {
  }

  class Connection {
    var data: seq<byte>
    var response: bool
    var wantsMetadata: bool
    var bytesToMetadata: int
    var fd: Option<OpenFile>
    var id3: Option<Id3Info>
    /** The id3 attribute only exists once a file has been opened. */
    var id3Bound: bool
    /** The songs the provider has not yet yielded. */
    var songs: seq<Entry>
    var trace: seq<Event>
    ghost var read: seq<byte>

    function FeedState(): Feed
      reads this
    {
      Feed(fd, id3, id3Bound, songs)
    }

    ghost predicate Valid()
      reads this
    {
      Inv(trace, response, wantsMetadata, bytesToMetadata, FeedState(), data, read)
    }

    /** The fields __init__ sets before it opens the first song. */
    constructor Init(provider: seq<Entry>)
      ensures Valid()
      ensures data == [] && !response && !wantsMetadata && bytesToMetadata == ChunkSize
      ensures fd.None? && id3.None? && !id3Bound && songs == provider
      ensures trace == [] && read == []
    {
      data := [];
      response := false;
      wantsMetadata := false;
      bytesToMetadata := ChunkSize;
      fd := None;
      id3 := None;
      id3Bound := false;
      songs := provider;
      trace := [];
      read := [];
    }

    /**
     * __init__: the first song the provider yields is discarded, then
     * getNextSong opens the next.  Either step raising means no connection
     * is served (null).
     */
    static method Accept(provider: seq<Entry>) returns (c: Connection?)
      ensures c == null <==> provider == [] || OpenRaises(provider[1..])
      ensures c != null ==> fresh(c) && c.Valid()
      ensures c != null ==>
        c.data == [] && !c.response && !c.wantsMetadata &&
        c.bytesToMetadata == ChunkSize && c.trace == []
      ensures c != null ==> c.FeedState() == NextSong(Feed(None, None, false, provider[1..]))
    {
      if provider == [] {
        // StopIteration from the discarded nextSong() call
        return null;
      }
      c := new Connection.Init(provider[1..]);
      var raised := c.GetNextSong();
      if raised {
        c := null;
      }
    }

    /** handle_read: a non-empty read containing Icy-MetaData, in any case,
        turns metadata on; nothing ever turns it off. */
    method HandleRead(received: seq<byte>)
      requires Valid() && |received| <= RecvSize
      modifies this
      ensures Valid()
      ensures wantsMetadata == (old(wantsMetadata) || RequestsMetadata(received))
      ensures data == old(data) && trace == old(trace) && response == old(response)
      ensures bytesToMetadata == old(bytesToMetadata) && FeedState() == old(FeedState())
    {
      if |received| > 0 {
        if RequestsMetadata(received) {
          wantsMetadata := true;
        }
      }
    }

    /** getNextSong: take the next entry and open it, skipping its ID3 tag;
        provider exhaustion or an IOError leaves fd as None. */
    method GetNextSong() returns (raised: bool)
      requires ValidFeed(FeedState())
      modifies this
      ensures FeedState() == NextSong(old(FeedState()))
      ensures raised == OpenRaises(old(songs))
      ensures data == old(data) && trace == old(trace) && response == old(response)
      ensures wantsMetadata == old(wantsMetadata) && bytesToMetadata == old(bytesToMetadata)
      ensures read == old(read)
    {
      raised := false;
      if songs == [] {
        // StopIteration
        fd := None;
      } else {
        var entry := songs[0];
        songs := songs[1..];
        match entry
        case Unreadable =>
          // IOError from open()
          fd := None;
        case Track(file, tag) =>
          fd := Some(OpenFile(file, 0));
          id3 := tag;
          id3Bound := true;
          if tag.Some? && tag.value.tagSize.Some? && tag.value.tagSize.value < |file| {
            fd := Some(OpenFile(file, tag.value.tagSize.value + 1));
          }
          raised := MakeMetadata(id3).Err?;
      }
    }

    /**
     * refill_buffer: up to ChunksInBuffer reads of ChunkSize bytes.  A short
     * read (array.fromfile's EOFError, after appending what it read) closes
     * the file, opens the next song and ends the refill.  With fd None
     * nothing happens.
     */
    method RefillBuffer()
      requires ValidFeed(FeedState())
      modifies this
      ensures data == old(data) + ReadAhead(old(fd)) && read == old(read) + ReadAhead(old(fd))
      ensures FeedState() == AfterRefill(old(FeedState()))
      ensures trace == old(trace) && response == old(response)
      ensures wantsMetadata == old(wantsMetadata) && bytesToMetadata == old(bytesToMetadata)
    {
      if fd.Some? {
        ghost var s0 := FeedState();
        var chunk, f, eof := ReadChunks(fd.value);
        data := data + chunk;
        read := read + chunk;
        fd := Some(f);
        if eof {
          // EOFError: the file is closed and the next song opened
          ShortRefill(s0, f.pos);
          var raised := GetNextSong();
        } else {
          FullRefill(s0);
        }
      }
    }

    /**
     * handle_write.  The first call sends the handshake, piece by piece.
     * Every later call sends the buffer up to the metadata boundary, then a
     * metadata block when the counter reaches 0 and the client asked for
     * metadata, drops the sent prefix and refills a short buffer.
     */
    method HandleWrite()
      requires Valid()
      modifies this
      ensures Valid() && response
      ensures wantsMetadata == old(wantsMetadata)
      ensures !old(response) ==>
        trace == HandshakeEvents(Response) && data == old(data) &&
        bytesToMetadata == old(bytesToMetadata) && FeedState() == old(FeedState())
      ensures old(response) ==>
        var r := AudioWrite(old(data), old(bytesToMetadata), old(wantsMetadata), old(FeedState()));
        trace == old(trace) + r.events && bytesToMetadata == r.counter &&
        data == r.data && FeedState() == r.feed
    {
      if !response {
        SendResponse();
      } else {
        AudioWriteKeepsInv(trace, wantsMetadata, bytesToMetadata, FeedState(), data, read);
        SendAudio();
      }
    }

    /** The first handle_write: every piece of the handshake, one send each. */
    method SendResponse()
      requires Valid() && !response
      modifies this
      ensures Valid() && response
      ensures trace == HandshakeEvents(Response)
      ensures data == old(data) && bytesToMetadata == old(bytesToMetadata)
      ensures wantsMetadata == old(wantsMetadata) && FeedState() == old(FeedState())
    {
      var i := 0;
      while i < |Response|
        invariant 0 <= i <= |Response|
        invariant trace == HandshakeEvents(Response[..i])
        invariant data == old(data) && bytesToMetadata == old(bytesToMetadata)
        invariant FeedState() == old(FeedState()) && read == old(read)
        invariant wantsMetadata == old(wantsMetadata) && !response
      {
        trace := trace + [Handshake(Response[i])];
        i := i + 1;
      }
      assert Response[..i] == Response;
      response := true;
      assert |Response| == HandshakePieces;
      TraceHandshake(Response, wantsMetadata);
    }

    /** A later handle_write: audio up to the boundary, maybe metadata, then trim and refill. */
    method SendAudio()
      requires bytesToMetadata >= 0 && ValidFeed(FeedState())
      modifies this
      ensures response == old(response) && wantsMetadata == old(wantsMetadata)
      ensures var r := AudioWrite(old(data), old(bytesToMetadata), old(wantsMetadata), old(FeedState()));
        trace == old(trace) + r.events && bytesToMetadata == r.counter &&
        data == r.data && FeedState() == r.feed && read == old(read) + r.fetched
    {
      ghost var r := AudioWrite(data, bytesToMetadata, wantsMetadata, FeedState());
      ghost var s0, t0, d0 := FeedState(), trace, data;
      var n := Min(|data|, bytesToMetadata);
      var chunk := data[..n];
      bytesToMetadata := bytesToMetadata - n;
      trace := trace + [Audio(chunk)];
      if bytesToMetadata <= 0 && wantsMetadata {
        bytesToMetadata := ChunkSize;
        var metadata := MakeMetadata(id3);
        if metadata.Err? {
          // make_metadata raised: the rest of handle_write does not run
          trace := trace + [MetaFailed];
          assert r == WriteStep([Audio(chunk), MetaFailed], ChunkSize, d0, [], s0);
          return;
        }
        trace := trace + [Meta(metadata.value)];
        assert r == TrimAndRefill([Audio(chunk), Meta(metadata.value)], ChunkSize, d0[n..], s0);
      } else {
        assert r == TrimAndRefill([Audio(chunk)], bytesToMetadata, d0[n..], s0);
      }
      assert trace == t0 + r.events;
      data := data[n..];
      if |data| < MinimumBytesInBuffer {
        RefillBuffer();
      }
    }
  }
}
