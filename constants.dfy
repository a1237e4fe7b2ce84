/** The module-level constants of shout.py: buffer sizes and the fixed ICY handshake. */
module ShoutConstants {
  /** One octet of a Python 2 str or array('B'). */
  newtype byte = b: int | 0 <= b < 256

  /** Largest read taken from a client socket (SIZE). */
  const RecvSize: nat := 1024
  /** The metadata interval, and the size of one refill read (CHUNKSIZE). */
  const ChunkSize: nat := 32 * 1024
  /** Reads per refill (CHUNKS_IN_BUFFER). */
  const ChunksInBuffer: nat := 32
  /** A refill is started when fewer bytes than this remain buffered (MINIMUM_BYTES_IN_BUFFER). */
  const MinimumBytesInBuffer: nat := 2 * ChunkSize

  const ServerAddress: string := "localhost"
  const ServerPort: nat := 8888

  function Min(a: int, b: int): int
  {
    if a < b then a else b
  }

  predicate IsDigit(c: char)
  {
    '0' <= c <= '9'
  }

  /** Python's str() on a non-negative int: decimal digits, no leading zero. */
  function DecimalString(n: nat): (s: string)
    ensures |s| >= 1
    ensures forall i :: 0 <= i < |s| ==> IsDigit(s[i])
    ensures s[0] == '0' <==> n == 0
    decreases n
  {
    if n < 10 then [('0' as int + n) as char]
    else DecimalString(n / 10) + [('0' as int + n % 10) as char]
  }

  /** What a client reads back from a decimal header value. */
  function ParseDecimal(s: string): nat
    requires forall i :: 0 <= i < |s| ==> IsDigit(s[i])
  {
    if s == [] then 0
    else
      assert IsDigit(s[|s| - 1]);
      10 * ParseDecimal(s[..|s| - 1]) + (s[|s| - 1] as int - '0' as int)
  }

  lemma {:induction false} DecimalRoundTrip(n: nat)
    ensures ParseDecimal(DecimalString(n)) == n
    decreases n
  {
    var s := DecimalString(n);
    if n < 10 {
      assert s[..|s| - 1] == [];
    } else {
      assert s[..|s| - 1] == DecimalString(n / 10);
      DecimalRoundTrip(n / 10);
    }
  }

  /** How many pieces the handshake has. */
  const HandshakePieces: nat := 16

  /**
   * The pieces handle_write sends, one send each, before any audio.
   * The notice1 piece has no line terminator, so a client sees notice1 and
   * notice2 on one header line.
   */
  const Response: seq<string> := [
    "ICY 200 OK\r\n",
    "icy-notice1: <BR>This stream requires",
    "icy-notice2: Winamp, or another streaming media player<BR>\r\n",
    "icy-name: Python mix\r\n",
    "icy-genre: Jazz Classical Rock\r\n",
    "icy-url: http://", ServerAddress, ":", DecimalString(ServerPort), "\r\n",
    "content-type: audio/mpeg\r\n",
    "icy-pub: 1\r\n",
    "icy-metaint: ", DecimalString(ChunkSize), "\r\n",
    "icy-br: 128\r\n\r\n"
  ]

  /** The advertised icy-metaint value reads back as the interval the stream actually uses. */
  lemma AdvertisedInterval()
    ensures |Response| == HandshakePieces
    ensures Response[12] == "icy-metaint: " && Response[14] == "\r\n"
    ensures forall i :: 0 <= i < |Response[13]| ==> IsDigit(Response[13][i])
    ensures ParseDecimal(Response[13]) == ChunkSize
    ensures forall i :: 0 <= i < |Response[8]| ==> IsDigit(Response[8][i])
    ensures ParseDecimal(Response[8]) == ServerPort
  {
    DecimalRoundTrip(ChunkSize);
    DecimalRoundTrip(ServerPort);
  }
}
