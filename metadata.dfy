/**
 * The ICY in-band metadata block (make_metadata) and the client's
 * "Icy-MetaData" request header (handle_read's pattern).  The block is one
 * length byte, the text StreamTitle='<title>'; and zero padding; the length
 * byte is floor(len(text) / 16) + 1, so a text whose length is a multiple
 * of 16 is followed by a whole block of zeros.  shout.py runs on Python 2:
 * chr(blocks) raises ValueError above 255, and encode('ascii') raises when
 * the length byte or a title character is outside ASCII.
 */
module IcyMetadata {
  import opened Wrappers
  import opened ShoutConstants
  import opened Tracks

  predicate IsAscii(s: string)
  {
    forall i :: 0 <= i < |s| ==> s[i] as int < 128
  }

  function AsciiBytes(s: string): (r: seq<byte>)
    requires IsAscii(s)
    ensures |r| == |s|
    ensures forall i :: 0 <= i < |s| ==> r[i] as int == s[i] as int
  {
    seq(|s|, i requires 0 <= i < |s| => s[i] as int as byte)
  }

  function AsciiChars(b: seq<byte>): (s: string)
    ensures |s| == |b|
    ensures forall i :: 0 <= i < |b| ==> s[i] as int == b[i] as int
  {
    seq(|b|, i requires 0 <= i < |b| => b[i] as int as char)
  }

  function Zeros(n: nat): (r: seq<byte>)
    ensures |r| == n
    ensures forall i :: 0 <= i < n ==> r[i] == 0
  {
    seq(n, _ => 0)
  }

  const TitlePrefix: string := "StreamTitle='"
  const TitleSuffix: string := "';"

  /** The text of the block; quotes in the title are not escaped. */
  function StreamText(title: string): string
  {
    TitlePrefix + title + TitleSuffix
  }

  /** Why make_metadata raises: chr() of a count above 255 (ValueError), or
      a character outside ASCII when the block is encoded (UnicodeError). */
  datatype MetaError = ChrOutOfRange | NotAscii

  lemma StreamTextAscii(title: string)
    requires IsAscii(title)
    ensures IsAscii(StreamText(title))
  {
    assert IsAscii(TitlePrefix);
    assert IsAscii(TitleSuffix);
    var text := StreamText(title);
    forall i | 0 <= i < |text|
      ensures text[i] as int < 128
    {
      if i < |TitlePrefix| {
        assert text[i] == TitlePrefix[i];
      } else if i < |TitlePrefix| + |title| {
        assert text[i] == title[i - |TitlePrefix|];
      } else {
        assert text[i] == TitleSuffix[i - |TitlePrefix| - |title|];
      }
    }
  }

  /** floor(n / 16) + 1 is the least block count that leaves room for a zero. */
  lemma BlockCount(n: nat)
    ensures n < 16 * (n / 16 + 1) <= n + 16
    ensures n / 16 + 1 < 128 <==> n <= 2031
  {
  }

  /** The layout of a block built from a length byte, the text and the padding. */
  lemma BlockLayout(text: string, blocks: nat)
    requires IsAscii(text) && blocks < 128 && |text| < 16 * blocks <= |text| + 16
    ensures var b := [blocks as byte] + AsciiBytes(text) + Zeros(blocks * 16 - |text|);
      b[0] as int == blocks && |b| == 16 * blocks + 1 &&
      b[1 .. 1 + |text|] == AsciiBytes(text) &&
      (forall k :: 1 + |text| <= k < |b| ==> b[k] == 0)
  {
    var b := [blocks as byte] + AsciiBytes(text) + Zeros(blocks * 16 - |text|);
    assert b[1 .. 1 + |text|] == AsciiBytes(text);
    forall k | 1 + |text| <= k < |b|
      ensures b[k] == 0
    {
      assert b[k] == Zeros(blocks * 16 - |text|)[k - 1 - |text|];
    }
  }

  /** The metadata block for one title. */
  function EncodeMetadata(title: string): (r: Result<seq<byte>, MetaError>)
    ensures r.Ok? <==> IsAscii(title) && |title| <= 2016
    ensures r.Ok? ==>
      var b, text := r.value, StreamText(title);
      IsAscii(text) && 1 + |text| < |b| <= 17 + |text| &&
      b[0] as int == |text| / 16 + 1 &&
      |b| == 16 * (b[0] as int) + 1 && |b| % 16 == 1 &&
      b[1 .. 1 + |text|] == AsciiBytes(text) &&
      (forall k :: 1 + |text| <= k < |b| ==> b[k] == 0)
  {
    var text := StreamText(title);
    var blocks := |text| / 16 + 1;
    BlockCount(|text|);
    if blocks > 255 then Err(ChrOutOfRange)
    else if blocks >= 128 || !IsAscii(title) then Err(NotAscii)
    else
      StreamTextAscii(title);
      BlockLayout(text, blocks);
      Ok([blocks as byte] + AsciiBytes(text) + Zeros(blocks * 16 - |text|))
  }

  /** The title a connection's metadata carries: empty without a tag, and
      Python's rendering "None" of a tag without a title frame. */
  function TitleText(id3: Option<Id3Info>): (r: string)
    ensures id3.Some? && id3.value.title.Some? ==> r == id3.value.title.value
    ensures (id3.None? || id3.value.title.None?) ==> IsAscii(r) && |r| <= 4
  {
    match id3
    case None => ""
    case Some(info) =>
      match info.title
      case None => "None"
      case Some(t) => t
  }

  /** make_metadata on the connection's current id3 value. */
  function MakeMetadata(id3: Option<Id3Info>): (r: Result<seq<byte>, MetaError>)
    ensures r.Ok? <==> IsAscii(TitleText(id3)) && |TitleText(id3)| <= 2016
    ensures id3.None? || id3.value.title.None? ==> r.Ok?
    ensures r.Ok? ==> ParseMetadata(r.value) == Some(TitleText(id3))
  {
    var r := EncodeMetadata(TitleText(id3));
    if r.Ok? then MetadataRoundTrip(TitleText(id3)); r else r
  }

  function StripZeros(b: seq<byte>): seq<byte>
  {
    if |b| > 0 && b[|b| - 1] == 0 then StripZeros(b[..|b| - 1]) else b
  }

  /** What an ICY client recovers from a metadata block: the title between
      StreamTitle=' and '; once the length byte and padding are removed. */
  function ParseMetadata(block: seq<byte>): Option<string>
  {
    if |block| == 0 || |block| != 16 * (block[0] as int) + 1 then None
    else
      var text := AsciiChars(StripZeros(block[1..]));
      if |text| >= |TitlePrefix| + |TitleSuffix|
         && text[..|TitlePrefix|] == TitlePrefix
         && text[|text| - |TitleSuffix|..] == TitleSuffix
      then Some(text[|TitlePrefix| .. |text| - |TitleSuffix|])
      else None
  }

  lemma {:induction false} StripPadding(b: seq<byte>, n: nat)
    requires |b| > 0 && b[|b| - 1] != 0
    ensures StripZeros(b + Zeros(n)) == b
    decreases n
  {
    if n == 0 {
      assert b + Zeros(0) == b;
    } else {
      assert (b + Zeros(n))[..|b| + n - 1] == b + Zeros(n - 1);
      StripPadding(b, n - 1);
    }
  }

  /** Every block make_metadata produces decodes to exactly its title. */
  lemma MetadataRoundTrip(title: string)
    requires EncodeMetadata(title).Ok?
    ensures ParseMetadata(EncodeMetadata(title).value) == Some(title)
  {
    var b := EncodeMetadata(title).value;
    var text := StreamText(title);
    var bytes := AsciiBytes(text);
    var pad := |b| - 1 - |text|;
    assert b[1..] == bytes + Zeros(pad) by {
      assert b[1 .. 1 + |text|] == bytes;
      assert b[1..] == b[1 .. 1 + |text|] + b[1 + |text|..];
      assert b[1 + |text|..] == Zeros(pad);
    }
    assert bytes[|bytes| - 1] as int == ';' as int;
    StripPadding(bytes, pad);
    var chars := AsciiChars(bytes);
    assert chars == text;
    assert text[..|TitlePrefix|] == TitlePrefix;
    assert text[|text| - |TitleSuffix|..] == TitleSuffix;
    assert text[|TitlePrefix| .. |text| - |TitleSuffix|] == title;
  }

  /** The title seen by a client is the tag's title, "None" for a tag without
      one, and empty when no tag was read. */
  lemma MetadataCarriesTitle(id3: Option<Id3Info>)
    requires MakeMetadata(id3).Ok?
    ensures id3.None? ==> ParseMetadata(MakeMetadata(id3).value) == Some("")
    ensures id3.Some? && id3.value.title.None? ==> ParseMetadata(MakeMetadata(id3).value) == Some("None")
    ensures id3.Some? && id3.value.title.Some? ==> ParseMetadata(MakeMetadata(id3).value) == Some(id3.value.title.value)
  {
    MetadataRoundTrip(TitleText(id3));
  }

  /** A text whose length is a multiple of 16 gets a whole trailing block of zeros. */
  lemma WholeZeroBlock(title: string)
    requires EncodeMetadata(title).Ok? && |StreamText(title)| % 16 == 0
    ensures var b := EncodeMetadata(title).value;
      |b| == |StreamText(title)| + 17 && forall k :: |b| - 16 <= k < |b| ==> b[k] == 0
  {
  }

  /** The pattern handle_read looks for, matched ignoring ASCII case. */
  const RequestHeader: string := "Icy-MetaData"

  function Lower(c: int): int
  {
    if 65 <= c <= 90 then c + 32 else c
  }

  predicate MatchesAt(s: seq<byte>, i: nat)
  {
    i + |RequestHeader| <= |s| &&
    forall k :: 0 <= k < |RequestHeader| ==> Lower(s[i + k] as int) == Lower(RequestHeader[k] as int)
  }

  /** re.search of the case-insensitive pattern, from position `from` on. */
  function FindHeader(s: seq<byte>, from: nat): (r: bool)
    ensures r <==> exists i :: from <= i && MatchesAt(s, i)
    decreases |s| - from
  {
    if from + |RequestHeader| > |s| then false
    else MatchesAt(s, from) || FindHeader(s, from + 1)
  }

  function RequestsMetadata(received: seq<byte>): bool
  {
    FindHeader(received, 0)
  }

  /** The header is found wherever it stands in a read and however it is cased. */
  lemma DetectsAnyCase(before: seq<byte>, header: seq<byte>, after: seq<byte>)
    requires |header| == |RequestHeader|
    requires forall k :: 0 <= k < |header| ==> Lower(header[k] as int) == Lower(RequestHeader[k] as int)
    ensures RequestsMetadata(before + header + after)
  {
    var s := before + header + after;
    forall k | 0 <= k < |RequestHeader|
      ensures Lower(s[|before| + k] as int) == Lower(RequestHeader[k] as int)
    {
      assert s[|before| + k] == header[k];
    }
    assert MatchesAt(s, |before|);
  }
}
