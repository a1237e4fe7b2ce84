# ShoutHandler: a Dafny model of PyCast's per-client stream

PyCast's `shout.py` is a small SHOUTcast/ICY audio server. Each client gets
a `ShoutHandler`. The handler sends an ICY handshake once, then streams MP3
bytes from a buffer. If the client sent an `Icy-MetaData` request header, it
inserts an in-band metadata block (`StreamTitle='…';`) after every
`CHUNKSIZE` audio bytes. It refills the buffer from the current track in
chunks, moves to the next track at end of file, and skips a leading ID3 tag.

The model has six modules:

- `Wrappers` (wrappers.dfy): `Option` and `Result`.
- `ShoutConstants` (constants.dfy):
  - the buffer constants and a `byte` type;
  - `str()` of a natural number and its inverse;
  - the sixteen handshake pieces of `RESPONSE`, exactly as written. This includes `"icy-notice1: <BR>This stream requires"`, which has no CRLF.
- `Tracks` (tracks.dfy):
  - the song provider, as the sequence of entries it will still yield: a readable track (its bytes plus what `id3reader` reported) or an entry whose `open` raises `IOError`;
  - the open file, as its content and a cursor;
  - the pure effect of `getNextSong` (`NextSong`) and of `refill_buffer` (`ReadAhead`, `AfterRefill`);
  - the chunked read loop as a method.
- `IcyMetadata` (metadata.dfy):
  - `make_metadata`, with Python 2's failure cases;
  - a decoder of the block for the round trip;
  - the case-insensitive `Icy-MetaData` search of `handle_read`.
- `StreamTrace` (trace.dfy):
  - the output of a connection, as one event per `send` call (handshake piece, audio slice, metadata block) plus an event for a metadata block whose construction raised;
  - what this trace must satisfy: the handshake comes first, metadata spacing, the counter against the audio sent, and the audio that has left the buffer.
- `Shout` (connection.dfy):
  - the class `Connection`, whose fields are the handler's (`data`, `response`, `wantsMetadata`, `bytesToMetadata`, `fd`, `id3`, the provider). It also records the output trace and a ghost record of every byte read from files;
  - `AudioWrite`: the value-level step of a streaming `handle_write`, which `HandleWrite` is proved to perform;
  - the invariant `Inv`, which every operation keeps:
    - the counter stays within `0..CHUNKSIZE`, and the counter plus the audio sent since the last metadata point is `CHUNKSIZE`;
    - metadata points are exactly `CHUNKSIZE` audio bytes apart;
    - the buffer stays below `MINIMUM_BYTES_IN_BUFFER + CHUNKS_IN_BUFFER * CHUNKSIZE` bytes;
    - the audio that has left the buffer, followed by the buffer, is exactly what was read from the files. A slice that is sent again after a failed block is counted once.

Python semantics the model writes out:

- `make_metadata` computes `len(text) // 16 + 1` blocks (floor plus one), so a text whose length is a multiple of 16 gets a whole block of zero padding.
- `chr(blocks)` raises `ValueError` above 255.
- A `UnicodeError` is raised (at line 104 or 106) once the length byte reaches 128 or the title has a non-ASCII character. So a block exists exactly for ASCII titles of at most 2016 characters.
- A tag without a title renders as `"None"`.
- An exception thrown while `handle_write` runs is swallowed by `asyncore`'s `handle_error`, so the rest of that `handle_write` does not run. When the metadata block cannot be built:
  - the counter has already been reset;
  - the buffer is not trimmed, so the same audio is sent again on the next write.
  - with a full chunk buffered, that next write fails in the same way on the same state. A metadata client of a track whose title cannot be encoded (a non-ASCII title, say) therefore gets the same 32 KiB slice forever, and the stream never reaches the next track (`FailedBlockRepeatsForever`).
  
  The trace records this as `MetaFailed`.
- `array.fromfile` appends a short read's bytes and then raises `EOFError`. That ends the refill loop, so one refill never reads from two tracks.
- The `id3` attribute does not exist until a track has been opened. `Inv` shows that `make_metadata` is never reached before then.
- With metadata off, once the counter reaches 0 every write sends an empty slice.
- The comment at line 163 expects the buffer not to exceed 1M. The bound the model proves is one byte short of `MINIMUM_BYTES_IN_BUFFER + CHUNKS_IN_BUFFER * CHUNKSIZE`, that is 34 chunks (1088 KiB). A refill of a buffer one byte short of the minimum reaches that bound (`BufferPassesOneMiB`).
- After the provider runs out, or after an `IOError`, `fd` is `None` and refills do nothing.

Everything outside the handler is a parameter of the model:

- The provider: `Accept`'s sequence of entries.
- What `id3reader` reports: an optional tag, with an optional title and an optional integer size.
- The file sizes: the length of each track's content.
- What `recv` returned: `HandleRead`'s argument.

## Model

| member | source | states |
|---|---|---|
| ShoutConstants.DecimalString | src/shout.py:51-54 | `str()` of a natural: at least one digit, all digits, leading `0` only for 0 |
| ShoutConstants.DecimalRoundTrip | src/shout.py:51-54 | reading the decimal text back gives the number |
| ShoutConstants.AdvertisedInterval | src/shout.py:43-55 | the handshake has 16 pieces; piece 13 follows `icy-metaint: ` and spells CHUNKSIZE (32768) in decimal, then CRLF; piece 8 spells the port 8888 |
| IcyMetadata.TitleText | src/shout.py:98-102 | the title is the tag's title when it has one; without a tag (empty) or without a title frame (`None`) it is short ASCII |
| IcyMetadata.MakeMetadata | src/shout.py:97-106 | make_metadata on the current id3: a block exists iff its title is ASCII and at most 2016 chars, always without a tag or title frame, and it decodes to that title |
| IcyMetadata.EncodeMetadata | src/shout.py:97-106 | a block exists iff the title is ASCII and at most 2016 chars; then first byte = len(text)/16+1, length = 16*first+1 (so length mod 16 = 1), the text's bytes follow the length byte, zeros after |
| IcyMetadata.MetadataRoundTrip | src/shout.py:98-106 | decoding any block make_metadata produces yields exactly its title |
| IcyMetadata.MetadataCarriesTitle | src/shout.py:98-102 | the block carries the tag's title, `None` for a tag without a title, and the empty title with no tag |
| IcyMetadata.WholeZeroBlock | src/shout.py:103-105 | a text whose length is a multiple of 16 is followed by a full 16-byte block of zeros |
| IcyMetadata.FindHeader | src/shout.py:68 | true iff `Icy-MetaData` occurs, ignoring ASCII case, at some position from `from` on |
| IcyMetadata.DetectsAnyCase | src/shout.py:87-91 | wherever the header stands in a read and however it is cased, it is detected |
| Tracks.StartOffset | src/shout.py:116-122 | reading starts at tagSize+1 iff the tag reports an int size below the file size, else at 0 |
| Tracks.NextSong | src/shout.py:109-130 | takes one entry; a readable track is opened at its start offset with its tag as id3; exhaustion or IOError leaves fd None and id3 as it was |
| Tracks.ReadAhead | src/shout.py:133-137 | one refill reads at most CHUNKS_IN_BUFFER*CHUNKSIZE bytes, consecutively from the cursor; nothing with fd None; less than that only at end of file |
| Tracks.ReadChunks | src/shout.py:136-140 | the read loop reads exactly ReadAhead, moves the cursor past it and reports EOF exactly when the file had less than the full amount left |
| Tracks.AfterRefill | src/shout.py:133-140 | with fd None nothing changes; without EOF the cursor advances by what was read; at EOF the next song is opened |
| Tracks.TrackDeliveredInFull | src/shout.py:133-140 | successive refills read the rest of the open file in order, no byte lost or repeated, before the next song opens |
| Tracks.OpenedTrackDelivered | src/shout.py:116-119 | a readable track is delivered from just past its tag to its last byte |
| StreamTrace.TraceHandshake | src/shout.py:145-148 | the 16 handshake sends carry no audio, no metadata, and leave the counter at CHUNKSIZE |
| StreamTrace.TraceAudio | src/shout.py:152-155 | sending a slice no longer than the counter lowers the counter by its length and keeps the trace invariant |
| StreamTrace.TraceMark | src/shout.py:158-161 | a metadata point is allowed when the counter is 0 and resets it to CHUNKSIZE |
| StreamTrace.MarkNeedsZeroCounter | src/shout.py:154-158 | the converse: a metadata point at any counter other than 0 breaks the spacing |
| StreamTrace.MetaPeriod | src/shout.py:154-161 | between two consecutive metadata points lie exactly CHUNKSIZE audio bytes |
| StreamTrace.FirstMetaPeriod | src/shout.py:152-161 | the first metadata point comes after exactly CHUNKSIZE audio bytes |
| Shout.TrimAndRefill | src/shout.py:164-166 | the sent prefix is dropped; a refill happens exactly when fewer than MINIMUM_BYTES_IN_BUFFER bytes remain, and appends what it read |
| Shout.AudioWrite | src/shout.py:150-166 | one streaming write: one audio slice no longer than the counter, then at most one more event; the counter stays in 0..CHUNKSIZE; the feed is unchanged or refilled, and only ReadAhead is read |
| Shout.AudioWriteKeepsInv | src/shout.py:150-166 | a streaming write keeps the connection invariant (counter bounds and accounting, spacing, buffer bound, audio that has left the buffer (a resent slice counted once) + buffer = bytes read) and builds a block only once a track was opened |
| Shout.TrimAndRefillKeepsInv | src/shout.py:163-166 | trimming and refilling keeps the invariant, the buffer bound included |
| Shout.WriteSendsPrefix | src/shout.py:152-164 | a write sends the buffer's prefix of length min(buffer, counter), then one metadata point exactly when the counter reaches 0 with metadata on; the counter is then CHUNKSIZE, else lowered by the bytes sent; unless the block failed, the buffer continues with the unsent rest |
| Shout.WriteBelowBoundary | src/shout.py:152-155 | below the boundary only audio is sent and the counter drops by its length |
| Shout.BlockAtBoundary | src/shout.py:158-164 | at the boundary the block for the current id3 follows the audio and the counter is reset |
| Shout.FailedBlockResends | src/shout.py:158-161 | a failed block leaves the buffer, feed and (reset) counter so the same slice is sent again |
| Shout.StuckOnFailedBlock | src/shout.py:158-161 | with a full chunk buffered and an unencodable title, a write at the boundary leaves the whole state as it found it |
| Shout.FailedBlockRepeatsForever | src/shout.py:150-161 | k such writes send the same slice and fail, k times |
| Shout.BufferPassesOneMiB | src/shout.py:163-166 | a refill of a buffer one byte short of the minimum ends with 34 chunks less a byte, above 1 MiB |
| Shout.StallsWithoutMetadata | src/shout.py:152-158 | with metadata off and the counter at 0, every write sends an empty slice and the counter stays 0 |
| Shout.Connection.Init | src/shout.py:65-69 | the initial field values: empty buffer, no response yet, metadata off, counter CHUNKSIZE |
| Shout.Connection.Accept | src/shout.py:60-73 | no handler iff the provider is empty or opening its second entry raises; otherwise the invariant holds, counter CHUNKSIZE, and the feed is NextSong of the provider without its first entry |
| Shout.Connection.HandleRead | src/shout.py:87-94 | metadata is on afterwards iff it was on or the read contains the header; nothing else changes |
| Shout.Connection.GetNextSong | src/shout.py:109-130 | the feed becomes NextSong of the old feed; it reports a raise exactly when the opened track's block cannot be built |
| Shout.Connection.RefillBuffer | src/shout.py:133-140 | the old buffer is a prefix of the new one, extended by exactly ReadAhead; the feed becomes AfterRefill of the old one |
| Shout.Connection.HandleWrite | src/shout.py:143-166 | the first call sends exactly the handshake pieces and changes nothing else; every later call performs AudioWrite; the invariant is kept and metadata stays as it was |
| Shout.Connection.SendResponse | src/shout.py:145-148 | sends each RESPONSE piece once, in order, then sets response |
| Shout.Connection.SendAudio | src/shout.py:150-166 | performs exactly AudioWrite on the fields |

## Left out

- `ShoutServer`, the `asyncore` loop, sockets, `bind`, `listen` and `accept` (src/shout.py:178-223) are not part of this model. They are network plumbing.
- `send` is total: the whole slice is recorded. The code ignores `send`'s return value, so partial sends are not modelled.
- `handle_close` and `handle_error` are left out. The only effect kept from `handle_error` is that it swallows an exception raised during `handle_write`.
- `fd.close()` is not modelled. Closing has no effect the handler can observe afterwards.
- The `__main__` block, `ConfigParser` and logging are left out. They are configuration and process I/O.
- `id3reader`, `os.path.getsize` and the song source are inputs, and each entry's values are fixed. The model assumes `id3reader` leaves the file position at 0 unless the handler seeks.
- An `OSError` from `getsize` is not modelled.
- Exceptions from `id3reader` other than `Id3Error` are not modelled.
- src/songsource.py is not part of this model. It is replaced by a sequence of entries that may run out.
- src/daemonize.py and setup.py are not part of this model.
- The `metadata` attribute is not kept as a field. Lines 123 and 160 assign it, but it is only read by the `send` right after. Only whether building it raised is kept (`GetNextSong`'s result, `MetaFailed`).
- The `fileName` and `client_address` attributes are not modelled. They are only logged.
- Shout.Connection.GetNextSong and Shout.Connection.RefillBuffer require only that their feed is well formed (fd's cursor within the file). Their callers guarantee this.
- HandleRead takes what `recv(SIZE)` returned, so it is at most 1024 bytes.

Behaviour one might expect of such a server that the code does not have. The model follows the code:

- The length byte is `len(text) // 16 + 1`, not a ceiling.
- A refill that reaches end of file stops there. It does not continue from the next track.
- An unreadable entry is not retried or skipped within the same call. `fd` stays `None` and every later refill does nothing.
- There is no closed state. A connection whose provider has run out keeps writing empty slices or whatever is left in the buffer.
- `Icy-MetaData` turns metadata on in any read, not only in the request headers.
