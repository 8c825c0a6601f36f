/**
 * Constants and byte-level primitives of the player client's wire protocol
 * (PlayerClient.h): the version and message codes, the receive-buffer size,
 * the GET_BYTE_* extraction macros, and the host/network order conversions
 * (ntohl/htonl, ntohs) the codec applies to every multi-byte field.
 *
 * Bytes, 16-bit and 32-bit fields are unsigned integers in their ranges. On
 * such values masking a byte and shifting it down is dividing by a power of
 * two and taking the remainder modulo 256, and OR-ing bytes shifted into
 * disjoint positions is adding them, which is how they are written here.
 *
 * The host byte order is a parameter. The code assembles every field from
 * the buffer most-significant byte first and only then applies ntohl, and
 * its encoders apply htonl before writing the top byte first, so the bytes
 * on the wire end up in HOST order: least-significant first on a
 * little-endian host, network order only on a big-endian one.
 */
module Wire {

  type byte = b: int | 0 <= b < 0x100
  type half = x: int | 0 <= x < 0x1_0000
  type word = x: int | 0 <= x < 0x1_0000_0000

  const VERSION_NUM: byte := 1

  // Message codes: 1..3 are sent by the client, 4..7 by the server.
  const PLAYER_MOVE: byte := 1
  const PLAYER_SELF_ANNIHILATE: byte := 2
  const PLAYER_SPAWN: byte := 3
  const PLAYER_JOIN_RESPONSE: byte := 4
  const SERVER_MAP_UPDATE: byte := 5
  const PLAYER_SPAWN_WITH_ID: byte := 6
  const ANNIHILATION_RESULTS: byte := 7

  /** Size of the receive and send buffers: one recv never yields more. */
  const BUFFER_SIZE: nat := 1024
  /** Number of player slots every bot is created with. */
  const PLAYER_LIMIT: nat := 20

  predicate IsClientCode(c: byte) { PLAYER_MOVE <= c <= PLAYER_SPAWN }
  predicate IsServerCode(c: byte) { PLAYER_JOIN_RESPONSE <= c <= ANNIHILATION_RESULTS }

  /** The seven message codes are pairwise distinct and split into the
      client-sent group 1..3 and the server-sent group 4..7. */
  lemma MessageCodesPartition()
    ensures |{PLAYER_MOVE, PLAYER_SELF_ANNIHILATE, PLAYER_SPAWN, PLAYER_JOIN_RESPONSE,
              SERVER_MAP_UPDATE, PLAYER_SPAWN_WITH_ID, ANNIHILATION_RESULTS}| == 7
    ensures forall c: byte :: !(IsClientCode(c) && IsServerCode(c))
    ensures IsClientCode(PLAYER_MOVE) && IsClientCode(PLAYER_SELF_ANNIHILATE) && IsClientCode(PLAYER_SPAWN)
    ensures IsServerCode(PLAYER_JOIN_RESPONSE) && IsServerCode(SERVER_MAP_UPDATE)
    ensures IsServerCode(PLAYER_SPAWN_WITH_ID) && IsServerCode(ANNIHILATION_RESULTS)
  {
  }

  // GET_BYTE_3 .. GET_BYTE_0: byte 3 is the most significant.

  function GetByte3(x: word): byte { x / 0x100_0000 }
  function GetByte2(x: word): byte { (x / 0x1_0000) % 0x100 }
  function GetByte1(x: word): byte { (x / 0x100) % 0x100 }
  function GetByte0(x: word): byte { x % 0x100 }

  /** Assembling four bytes most-significant first, as the decoder does. */
  function Join32(b3: byte, b2: byte, b1: byte, b0: byte): word
  {
    b3 * 0x100_0000 + b2 * 0x1_0000 + b1 * 0x100 + b0
  }

  function Join16(b1: byte, b0: byte): half
  {
    b1 * 0x100 + b0
  }

  /** The four extracted bytes are the base-256 digits of the word:
      recombining them gives it back, and every word is one such join. */
  lemma ByteSplitRecombines(x: word)
    ensures Join32(GetByte3(x), GetByte2(x), GetByte1(x), GetByte0(x)) == x
  {
    var r1 := x / 0x100;
    var r2 := r1 / 0x100;
    assert x == r1 * 0x100 + x % 0x100;
    assert r1 == r2 * 0x100 + r1 % 0x100;
    assert x / 0x1_0000 == r2;
    assert x / 0x100_0000 == r2 / 0x100;
  }

  lemma JoinSplits(b3: byte, b2: byte, b1: byte, b0: byte)
    ensures var x := Join32(b3, b2, b1, b0);
      GetByte3(x) == b3 && GetByte2(x) == b2 && GetByte1(x) == b1 && GetByte0(x) == b0
  {
    var x := Join32(b3, b2, b1, b0);
    var q1 := b3 * 0x1_0000 + b2 * 0x100 + b1;
    var q2 := b3 * 0x100 + b2;
    assert x == q1 * 0x100 + b0;
    assert q1 == q2 * 0x100 + b1;
    assert x / 0x100 == q1;
    assert q1 / 0x100 == q2;
    assert x / 0x1_0000 == q2;
    assert q2 / 0x100 == b3;
    assert x / 0x100_0000 == b3;
  }

  datatype HostOrder = BigEndianHost | LittleEndianHost

  function Swap32(x: word): word
  {
    Join32(GetByte0(x), GetByte1(x), GetByte2(x), GetByte3(x))
  }

  function Swap16(x: half): half
  {
    Join16(x % 0x100, x / 0x100)
  }

  /** ntohl; htonl is the same permutation of bytes. */
  function Ntohl(h: HostOrder, x: word): word
  {
    if h.LittleEndianHost? then Swap32(x) else x
  }

  function Htonl(h: HostOrder, x: word): word
  {
    if h.LittleEndianHost? then Swap32(x) else x
  }

  function Ntohs(h: HostOrder, x: half): half
  {
    if h.LittleEndianHost? then Swap16(x) else x
  }

  lemma NtohlUndoesHtonl(h: HostOrder, x: word)
    ensures Ntohl(h, Htonl(h, x)) == x
  {
    if h.LittleEndianHost? {
      JoinSplits(GetByte0(x), GetByte1(x), GetByte2(x), GetByte3(x));
      ByteSplitRecombines(x);
    }
  }

  lemma NtohsInvolutive(h: HostOrder, x: half)
    ensures Ntohs(h, Ntohs(h, x)) == x
  {
    if h.LittleEndianHost? {
      var lo, hi := x % 0x100, x / 0x100;
      var s := Join16(lo, hi);
      assert s / 0x100 == lo && s % 0x100 == hi;
      assert Join16(hi, lo) == x;
    }
  }

  /** How the encoders lay a 32-bit field out: htonl, then the top byte of
      the converted word first. */
  function WordBytes(h: HostOrder, x: word): (r: seq<byte>)
    ensures |r| == 4
  {
    var c := Htonl(h, x);
    [GetByte3(c), GetByte2(c), GetByte1(c), GetByte0(c)]
  }

  /** The field layout of a 16-bit value, as a server would write it. */
  function HalfBytes(h: HostOrder, x: half): (r: seq<byte>)
    ensures |r| == 2
  {
    var c := Ntohs(h, x);
    [c / 0x100, c % 0x100]
  }

  /** How the decoder reads a 32-bit field starting at `at`. */
  function ReadWord(h: HostOrder, buf: seq<byte>, at: nat): word
    requires at + 4 <= |buf|
  {
    Ntohl(h, Join32(buf[at], buf[at + 1], buf[at + 2], buf[at + 3]))
  }

  /** How the decoder reads a 16-bit field starting at `at`. */
  function ReadHalf(h: HostOrder, buf: seq<byte>, at: nat): half
    requires at + 2 <= |buf|
  {
    Ntohs(h, Join16(buf[at], buf[at + 1]))
  }

  /** The encoder's layout and the decoder's read are mirror images, on
      either host: reading back the four bytes written for `x` yields `x`. */
  lemma ReadWordOfWordBytes(h: HostOrder, x: word, buf: seq<byte>, at: nat)
    requires at + 4 <= |buf| && buf[at..at + 4] == WordBytes(h, x)
    ensures ReadWord(h, buf, at) == x
  {
    var w := buf[at..at + 4];
    assert buf[at] == w[0] && buf[at + 1] == w[1] && buf[at + 2] == w[2] && buf[at + 3] == w[3];
    ByteSplitRecombines(Htonl(h, x));
    NtohlUndoesHtonl(h, x);
  }

  lemma ReadHalfOfHalfBytes(h: HostOrder, x: half, buf: seq<byte>, at: nat)
    requires at + 2 <= |buf| && buf[at..at + 2] == HalfBytes(h, x)
    ensures ReadHalf(h, buf, at) == x
  {
    var w := buf[at..at + 2];
    assert buf[at] == w[0] && buf[at + 1] == w[1];
    NtohsInvolutive(h, x);
  }

  /** On a little-endian host the wire carries the least-significant byte
      first (18 goes out as 18, 0, 0, 0); only a big-endian host produces
      network order. */
  lemma WireOrderIsHostOrder(x: word)
    ensures WordBytes(LittleEndianHost, x) == [GetByte0(x), GetByte1(x), GetByte2(x), GetByte3(x)]
    ensures WordBytes(BigEndianHost, x) == [GetByte3(x), GetByte2(x), GetByte1(x), GetByte0(x)]
  {
    JoinSplits(GetByte0(x), GetByte1(x), GetByte2(x), GetByte3(x));
  }

  lemma LengthEighteenOnLittleEndian()
    ensures WordBytes(LittleEndianHost, 18) == [18, 0, 0, 0]
  {
    assert GetByte0(18) == 18 && GetByte1(18) == 0 && GetByte2(18) == 0 && GetByte3(18) == 0;
    assert Swap32(18) == 18 * 0x100_0000;
  }

  // Two's-complement reinterpretation of the (int32_t) and (int16_t) casts.

  function ToInt32(x: word): (r: int)
    ensures -0x8000_0000 <= r < 0x8000_0000
    ensures r >= 0 <==> x < 0x8000_0000
    ensures r % 0x1_0000_0000 == x
  {
    if x < 0x8000_0000 then x else x - 0x1_0000_0000
  }

  function ToInt16(x: half): (r: int)
    ensures -0x8000 <= r < 0x8000
    ensures r >= 0 <==> x < 0x8000
    ensures r % 0x1_0000 == x
  {
    if x < 0x8000 then x else x - 0x1_0000
  }
}
