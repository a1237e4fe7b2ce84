/**
 * The song provider and the open audio file of one connection, as the
 * getNextSong and refill_buffer steps of shout.py see them.  The file
 * system, id3reader and os.path.getsize are foreign: a provider entry
 * carries the file's bytes and what id3reader would report about them.
 */
module Tracks {
  import opened Wrappers
  import opened ShoutConstants

  /** What id3reader reports: the title frame (None when absent) and the
      header size when it is an int (None otherwise). */
  datatype Id3Info = Id3Info(title: Option<string>, tagSize: Option<nat>)

  /** One path yielded by the song provider: a file that opens, with its
      whole content and its tag (None when id3reader raises Id3Error), or one
      whose open() raises IOError. */
  datatype Entry = Track(file: seq<byte>, tag: Option<Id3Info>) | Unreadable

  /** An open file and its read cursor. */
  datatype OpenFile = OpenFile(content: seq<byte>, pos: nat)

  predicate ValidFile(f: OpenFile)
  {
    f.pos <= |f.content|
  }

  function Remaining(f: OpenFile): nat
    requires ValidFile(f)
  {
    |f.content| - f.pos
  }

  /** The provider-facing fields of a connection: fd, id3, whether the id3
      attribute has been bound yet, and the songs the provider still holds. */
  datatype Feed = Feed(fd: Option<OpenFile>, id3: Option<Id3Info>, id3Bound: bool, songs: seq<Entry>)

  predicate ValidFeed(s: Feed)
  {
    s.fd.Some? ==> ValidFile(s.fd.value) && s.id3Bound
  }

  /** Where reading starts in a freshly opened file: just past the ID3 tag
      when the tag reports an int size below the file size, else at 0. */
  function StartOffset(file: seq<byte>, tag: Option<Id3Info>): (r: nat)
    ensures r <= |file|
    ensures r > 0 <==> tag.Some? && tag.value.tagSize.Some? && tag.value.tagSize.value < |file|
    ensures r > 0 ==> r == tag.value.tagSize.value + 1
  {
    if tag.Some? && tag.value.tagSize.Some? && tag.value.tagSize.value < |file|
    then tag.value.tagSize.value + 1
    else 0
  }

  /** The effect of getNextSong on the feed. */
  function NextSong(s: Feed): (r: Feed)
    ensures ValidFeed(r)
    ensures r.songs == if s.songs == [] then [] else s.songs[1..]
    ensures r.fd.Some? <==> s.songs != [] && s.songs[0].Track?
    ensures r.fd.Some? ==>
      r.fd.value.content == s.songs[0].file && r.id3 == s.songs[0].tag &&
      r.fd.value.pos == StartOffset(s.songs[0].file, s.songs[0].tag)
    ensures r.fd.None? ==> r.id3 == s.id3 && r.id3Bound == s.id3Bound
  {
    if s.songs == [] then s.(fd := None)
    else
      match s.songs[0]
      case Unreadable => Feed(None, s.id3, s.id3Bound, s.songs[1..])
      case Track(file, tag) => Feed(Some(OpenFile(file, StartOffset(file, tag))), tag, true, s.songs[1..])
  }

  /** A refill reads ChunksInBuffer chunks; a short read means end of file. */
  predicate HitsEof(f: OpenFile)
    requires ValidFile(f)
  {
    Remaining(f) < ChunksInBuffer * ChunkSize
  }

  /** The bytes one refill_buffer call appends to the buffer. */
  function ReadAhead(fd: Option<OpenFile>): (r: seq<byte>)
    requires fd.Some? ==> ValidFile(fd.value)
    ensures |r| <= ChunksInBuffer * ChunkSize
    ensures fd.None? ==> r == []
    ensures fd.Some? ==>
      fd.value.pos + |r| <= |fd.value.content| &&
      r == fd.value.content[fd.value.pos .. fd.value.pos + |r|]
    ensures fd.Some? && |r| < ChunksInBuffer * ChunkSize ==> fd.value.pos + |r| == |fd.value.content|
  {
    match fd
    case None => []
    case Some(f) => f.content[f.pos .. f.pos + Min(Remaining(f), ChunksInBuffer * ChunkSize)]
  }

  /**
   * The read loop of refill_buffer: up to ChunksInBuffer calls of
   * array.fromfile(fd, ChunkSize).  A short read appends what it got and
   * raises EOFError, which ends the loop.
   */
  method ReadChunks(f: OpenFile) returns (chunk: seq<byte>, g: OpenFile, eof: bool)
    requires ValidFile(f)
    ensures chunk == ReadAhead(Some(f))
    ensures g == OpenFile(f.content, f.pos + |chunk|)
    ensures eof == HitsEof(f)
  {
    chunk := [];
    g := f;
    eof := false;
    var i := 0;
    while i < ChunksInBuffer && !eof
      invariant 0 <= i <= ChunksInBuffer
      invariant g.content == f.content && f.pos <= g.pos <= |f.content|
      invariant !eof ==> g.pos == f.pos + i * ChunkSize
      invariant eof ==> g.pos == |f.content| && HitsEof(f)
      invariant chunk == f.content[f.pos .. g.pos]
      decreases ChunksInBuffer - i, if eof then 0 else 1
    {
      var n := Min(ChunkSize, |g.content| - g.pos);
      assert f.content[f.pos .. g.pos + n] == f.content[f.pos .. g.pos] + f.content[g.pos .. g.pos + n];
      chunk := chunk + g.content[g.pos .. g.pos + n];
      g := g.(pos := g.pos + n);
      if n < ChunkSize {
        eof := true;
      } else {
        i := i + 1;
      }
    }
  }

  /** The effect of refill_buffer on the feed. */
  function AfterRefill(s: Feed): (r: Feed)
    requires ValidFeed(s)
    ensures ValidFeed(r)
    ensures s.fd.None? ==> r == s
    ensures s.fd.Some? && !HitsEof(s.fd.value) ==>
      r == s.(fd := Some(OpenFile(s.fd.value.content, s.fd.value.pos + |ReadAhead(s.fd)|)))
    ensures s.fd.Some? && HitsEof(s.fd.value) ==> r == NextSong(s)
  {
    match s.fd
    case None => s
    case Some(f) =>
      if HitsEof(f) then NextSong(s)
      else s.(fd := Some(f.(pos := f.pos + ChunksInBuffer * ChunkSize)))
  }

  /** A refill with at least ChunksInBuffer full chunks left reads them all and stays on the file. */
  lemma FullRefill(s: Feed)
    requires ValidFeed(s) && s.fd.Some?
    requires s.fd.value.pos + ChunksInBuffer * ChunkSize <= |s.fd.value.content|
    ensures ReadAhead(s.fd) == s.fd.value.content[s.fd.value.pos .. s.fd.value.pos + ChunksInBuffer * ChunkSize]
    ensures AfterRefill(s) == s.(fd := Some(OpenFile(s.fd.value.content, s.fd.value.pos + ChunksInBuffer * ChunkSize)))
  {
  }

  /** A refill that reaches the end of the file reads the rest of it and
      opens the next song, wherever the cursor of the finished file stands. */
  lemma ShortRefill(s: Feed, cursor: nat)
    requires ValidFeed(s) && s.fd.Some?
    requires |s.fd.value.content| - s.fd.value.pos < ChunksInBuffer * ChunkSize
    ensures ReadAhead(s.fd) == s.fd.value.content[s.fd.value.pos..]
    ensures AfterRefill(s) == NextSong(s.(fd := Some(OpenFile(s.fd.value.content, cursor))))
  {
  }

  /** The bytes successive refills read from the current file, up to and
      including the refill that reaches its end and moves on. */
  function Drain(s: Feed): seq<byte>
    requires ValidFeed(s)
    decreases if s.fd.Some? then Remaining(s.fd.value) else 0
  {
    match s.fd
    case None => []
    case Some(f) =>
      if HitsEof(f) then ReadAhead(s.fd)
      else ReadAhead(s.fd) + Drain(AfterRefill(s))
  }

  /** Refills deliver the rest of the open file in order, with no byte lost
      or repeated, before the next song is opened. */
  lemma {:induction false} TrackDeliveredInFull(s: Feed)
    requires ValidFeed(s) && s.fd.Some?
    ensures Drain(s) == s.fd.value.content[s.fd.value.pos..]
    decreases Remaining(s.fd.value)
  {
    var f := s.fd.value;
    if !HitsEof(f) {
      var next := AfterRefill(s);
      TrackDeliveredInFull(next);
      var k := f.pos + ChunksInBuffer * ChunkSize;
      assert f.content[f.pos..] == f.content[f.pos .. k] + f.content[k..];
    }
  }

  /** A readable track is streamed from just past its tag to its last byte. */
  lemma OpenedTrackDelivered(s: Feed)
    requires s.songs != [] && s.songs[0].Track?
    ensures Drain(NextSong(s)) == s.songs[0].file[StartOffset(s.songs[0].file, s.songs[0].tag)..]
  {
    TrackDeliveredInFull(NextSong(s));
  }
}
