/**
 * What a connection emits, one event per send() call of handle_write, and
 * the bookkeeping facts about it: audio since the last metadata point, the
 * spacing of metadata points, and the audio that has left the buffer.
 */
module StreamTrace {
  import opened ShoutConstants

  datatype Event =
    | Handshake(piece: string)
    /** One send of a buffer slice (possibly empty). */
    | Audio(bytes: seq<byte>)
    /** One send of a metadata block. */
    | Meta(block: seq<byte>)
    /** make_metadata raised; handle_error discards the exception, nothing is
        sent and the rest of that handle_write is skipped. */
    | MetaFailed
  {
    /** A point where the metadata counter was reset. */
    predicate IsMark()
    {
      Meta? || MetaFailed?
    }
  }

  function HandshakeEvents(pieces: seq<string>): (r: seq<Event>)
    ensures |r| == |pieces|
    ensures forall i :: 0 <= i < |pieces| ==> r[i] == Handshake(pieces[i])
  {
    seq(|pieces|, i requires 0 <= i < |pieces| => Handshake(pieces[i]))
  }

  /** The handshake pieces come first and never again. */
  predicate HandshakeFirst(t: seq<Event>)
  {
    HandshakePieces <= |t| && forall i :: 0 <= i < |t| ==> (t[i].Handshake? <==> i < HandshakePieces)
  }

  predicate NoMarks(t: seq<Event>)
  {
    forall i :: 0 <= i < |t| ==> !t[i].IsMark()
  }

  /** Audio bytes sent in all of t. */
  function AudioLength(t: seq<Event>): nat
    decreases |t|
  {
    if t == [] then 0
    else AudioLength(t[..|t| - 1]) + (if t[|t| - 1].Audio? then |t[|t| - 1].bytes| else 0)
  }

  /** Audio bytes sent since the last metadata point. */
  function AudioSinceMark(t: seq<Event>): nat
    decreases |t|
  {
    if t == [] then 0
    else
      match t[|t| - 1]
      case Audio(b) => AudioSinceMark(t[..|t| - 1]) + |b|
      case Handshake(_) => AudioSinceMark(t[..|t| - 1])
      case _ => 0
  }

  /** Every metadata point comes exactly ChunkSize audio bytes after the previous one. */
  predicate Spaced(t: seq<Event>)
    decreases |t|
  {
    t == [] ||
    (Spaced(t[..|t| - 1]) && (t[|t| - 1].IsMark() ==> AudioSinceMark(t[..|t| - 1]) == ChunkSize))
  }

  /** Spaced, read at one position. */
  lemma {:induction false} SpacedAt(t: seq<Event>, i: nat)
    requires Spaced(t) && i < |t| && t[i].IsMark()
    ensures AudioSinceMark(t[..i]) == ChunkSize
    decreases |t|
  {
    var init := t[..|t| - 1];
    if i < |t| - 1 {
      assert init[i] == t[i] && init[..i] == t[..i];
      SpacedAt(init, i);
    }
  }

  /** The audio that has left the buffer: a slice sent just before a failed
      metadata block stays buffered and is sent again, so it is not counted. */
  function Committed(t: seq<Event>): seq<byte>
    decreases |t|
  {
    if t == [] then []
    else
      var init := t[..|t| - 1];
      match t[|t| - 1]
      case Audio(b) => Committed(init) + b
      case MetaFailed =>
        if init != [] && init[|init| - 1].Audio? then Committed(init[..|init| - 1]) else Committed(init)
      case _ => Committed(init)
  }

  lemma Snoc(t: seq<Event>, e: Event)
    ensures (t + [e])[..|t|] == t
    ensures AudioSinceMark(t + [e]) ==
      if e.IsMark() then 0 else AudioSinceMark(t) + (if e.Audio? then |e.bytes| else 0)
    ensures !e.MetaFailed? ==> Committed(t + [e]) == Committed(t) + (if e.Audio? then e.bytes else [])
  {
    assert (t + [e])[..|t|] == t;
  }

  /** Appending a slice and then a failed block leaves the committed audio as it was. */
  lemma CommittedRetract(t: seq<Event>, b: seq<byte>)
    ensures Committed(t + [Audio(b)] + [MetaFailed]) == Committed(t)
  {
    var t' := t + [Audio(b)] + [MetaFailed];
    assert t'[..|t'| - 1] == t + [Audio(b)];
    assert (t + [Audio(b)])[..|t|] == t;
  }

  lemma SpacedSnoc(t: seq<Event>, e: Event)
    requires Spaced(t)
    requires e.IsMark() ==> AudioSinceMark(t) == ChunkSize
    ensures Spaced(t + [e])
  {
    assert (t + [e])[..|t|] == t;
  }

  lemma NoMarksSnoc(t: seq<Event>, e: Event)
    requires NoMarks(t) && !e.IsMark()
    ensures NoMarks(t + [e])
  {
  }

  lemma HandshakeFirstSnoc(t: seq<Event>, e: Event)
    requires HandshakeFirst(t) && !e.Handshake?
    ensures HandshakeFirst(t + [e])
  {
  }

  lemma {:induction false} SinceMarkOverUnmarked(p: seq<Event>, q: seq<Event>)
    requires NoMarks(q)
    ensures AudioSinceMark(p + q) == AudioSinceMark(p) + AudioLength(q)
    decreases |q|
  {
    if q == [] {
      assert p + q == p;
    } else {
      var q' := q[..|q| - 1];
      assert (p + q)[..|p + q| - 1] == p + q';
      assert NoMarks(q');
      SinceMarkOverUnmarked(p, q');
    }
  }

  /** After a metadata point and no other, the counted audio is what follows it. */
  lemma SinceLastMark(t: seq<Event>, i: nat, j: nat)
    requires i < j <= |t| && t[i].IsMark()
    requires forall k :: i < k < j ==> !t[k].IsMark()
    ensures AudioSinceMark(t[..j]) == AudioLength(t[i + 1 .. j])
  {
    var p, q := t[..i + 1], t[i + 1 .. j];
    assert p[|p| - 1] == t[i];
    assert AudioSinceMark(p) == 0;
    assert NoMarks(q) by {
      forall k | 0 <= k < |q| ensures !q[k].IsMark() {
        assert q[k] == t[i + 1 + k];
      }
    }
    SinceMarkOverUnmarked(p, q);
    assert p + q == t[..j];
  }

  /** Between two consecutive metadata points lie exactly ChunkSize audio bytes. */
  lemma MetaPeriod(t: seq<Event>, i: nat, j: nat)
    requires Spaced(t) && i < j < |t| && t[i].IsMark() && t[j].IsMark()
    requires forall k :: i < k < j ==> !t[k].IsMark()
    ensures AudioLength(t[i + 1 .. j]) == ChunkSize
  {
    SinceLastMark(t, i, j);
    SpacedAt(t, j);
  }

  /** The first metadata point comes after exactly ChunkSize audio bytes. */
  lemma FirstMetaPeriod(t: seq<Event>, j: nat)
    requires Spaced(t) && j < |t| && t[j].IsMark()
    requires forall k :: 0 <= k < j ==> !t[k].IsMark()
    ensures AudioLength(t[..j]) == ChunkSize
  {
    assert NoMarks(t[..j]);
    SinceMarkOverUnmarked([], t[..j]);
    assert [] + t[..j] == t[..j];
    SpacedAt(t, j);
  }

  /** The trace-side invariant of a connection: response flag, metadata flag
      and counter against what has been sent. */
  predicate TraceOk(t: seq<Event>, response: bool, wants: bool, counter: int)
  {
    && 0 <= counter <= ChunkSize
    && (!response ==> t == [] && counter == ChunkSize)
    && (response ==> HandshakeFirst(t))
    && (!wants ==> NoMarks(t))
    && Spaced(t)
    && counter + AudioSinceMark(t) == ChunkSize
  }

  /** The handshake starts the stream, ChunkSize bytes before the first metadata point. */
  lemma TraceHandshake(pieces: seq<string>, wants: bool)
    requires |pieces| == HandshakePieces
    ensures TraceOk(HandshakeEvents(pieces), true, wants, ChunkSize)
    ensures Committed(HandshakeEvents(pieces)) == []
  {
    var t := HandshakeEvents(pieces);
    assert NoMarks(t);
    SinceMarkOverUnmarked([], t);
    assert [] + t == t;
    HandshakeCarriesNoAudio(t);
    UnmarkedSpaced(t);
  }

  /** With no metadata point, the spacing rule holds vacuously. */
  lemma {:induction false} UnmarkedSpaced(t: seq<Event>)
    requires NoMarks(t)
    ensures Spaced(t)
    decreases |t|
  {
    if t != [] {
      UnmarkedSpaced(t[..|t| - 1]);
    }
  }

  lemma {:induction false} HandshakeCarriesNoAudio(t: seq<Event>)
    requires forall i :: 0 <= i < |t| ==> t[i].Handshake?
    ensures AudioLength(t) == 0 && Committed(t) == []
    decreases |t|
  {
    if t != [] {
      HandshakeCarriesNoAudio(t[..|t| - 1]);
    }
  }

  /** Sending a slice no longer than the counter keeps the invariant and
      lowers the counter by the slice's length. */
  lemma TraceAudio(t: seq<Event>, wants: bool, counter: int, chunk: seq<byte>)
    requires TraceOk(t, true, wants, counter) && |chunk| <= counter
    ensures TraceOk(t + [Audio(chunk)], true, wants, counter - |chunk|)
    ensures Committed(t + [Audio(chunk)]) == Committed(t) + chunk
  {
    Snoc(t, Audio(chunk));
    SpacedSnoc(t, Audio(chunk));
    HandshakeFirstSnoc(t, Audio(chunk));
    if !wants {
      NoMarksSnoc(t, Audio(chunk));
    }
  }

  /** A metadata point is allowed exactly when the counter is 0, and resets it. */
  lemma TraceMark(t: seq<Event>, e: Event)
    requires TraceOk(t, true, true, 0) && e.IsMark()
    ensures TraceOk(t + [e], true, true, ChunkSize)
    ensures e.Meta? ==> Committed(t + [e]) == Committed(t)
  {
    Snoc(t, e);
    SpacedSnoc(t, e);
    HandshakeFirstSnoc(t, e);
  }

  /** The converse of TraceMark: a metadata point at any other counter breaks the spacing. */
  lemma MarkNeedsZeroCounter(t: seq<Event>, counter: int, e: Event)
    requires TraceOk(t, true, true, counter) && e.IsMark() && counter != 0
    ensures !Spaced(t + [e])
  {
    assert (t + [e])[..|t|] == t;
  }
}
