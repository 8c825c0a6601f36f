/**
 * The frame formats of the player client (PlayerClient.cpp).
 *
 * Every frame starts with a 32-bit length field counting the whole frame,
 * a version byte and a message code:
 *
 *   offset 0..3   length        offset 4   VERSION_NUM     offset 5   code
 *
 * Server frames: JoinResponse (10 bytes: id at 6), MapUpdate (count as a
 * 16-bit field at 6, then count 16-byte records id/x/y/z from offset 8),
 * SpawnWithId (22 bytes: id at 6, x, y, z at 10, 14, 18) and
 * AnnihilationResults (killer at 6, a 16-bit kill count at 10, then one
 * 4-byte victim id per kill from offset 12). Client frames: Move and Spawn
 * (18 bytes: x, y, z at 6, 10, 14) and SelfAnnihilate (6 bytes).
 *
 * Coordinates are kept as the raw 32-bit patterns of the floats.
 */
module Codec {
  import opened Wire
  import opened Chunks

  datatype Result<T, E> = Ok(value: T) | Err(error: E)

  /** One MapUpdate record as the decoder reads it: the id reinterpreted as
      a signed 32-bit integer, the coordinates as raw float bits. */
  datatype Record = Record(id: int, x: word, y: word, z: word)

  datatype ServerMessage =
    | JoinResponse(id: int)
    | MapUpdate(records: seq<Record>)
    | SpawnWithId(id: int, x: word, y: word, z: word)
    | AnnihilationResults(killer: int, numKills: int, victims: seq<int>)

  /** Why a frame is refused. PastBuffer is not a check of the code: it
      marks a count whose records would be read past the end of the receive
      buffer, which the code does not guard against. */
  datatype DecodeError =
    | ShortFrame
    | WrongVersion
    | WrongLength(code: byte)
    | UnknownCode(code: byte)
    | PastBuffer

  /** The largest MapUpdate count and kill count whose records fit in the
      receive buffer. */
  const MAX_RECORDS: nat := (BUFFER_SIZE - 8) / 16
  const MAX_VICTIMS: nat := (BUFFER_SIZE - 12) / 4

  /** The declared frame length, the first field of every frame. */
  function FrameLength(h: HostOrder, buf: seq<byte>): int
    requires 4 <= |buf|
  {
    ReadWord(h, buf, 0)
  }

  function NonNegative(n: int): nat
  {
    if n < 0 then 0 else n
  }

  function ReadRecord(h: HostOrder, buf: seq<byte>, at: nat): Record
    requires at + 16 <= |buf|
  {
    Record(ToInt32(ReadWord(h, buf, at)), ReadWord(h, buf, at + 4), ReadWord(h, buf, at + 8), ReadWord(h, buf, at + 12))
  }

  /** The first n MapUpdate records, in the order the loop visits them. */
  function ReadRecords(h: HostOrder, buf: seq<byte>, n: nat): (rs: seq<Record>)
    requires 8 + 16 * n <= |buf|
    ensures |rs| == n
  {
    if n == 0 then [] else ReadRecords(h, buf, n - 1) + [ReadRecord(h, buf, 8 + 16 * (n - 1))]
  }

  /** The first n victim ids of an AnnihilationResults frame. */
  function ReadVictims(h: HostOrder, buf: seq<byte>, n: nat): (vs: seq<int>)
    requires 12 + 4 * n <= |buf|
    ensures |vs| == n
  {
    if n == 0 then [] else ReadVictims(h, buf, n - 1) + [ToInt32(ReadWord(h, buf, 12 + 4 * (n - 1)))]
  }

  /** Record i of a MapUpdate is read at offset 8 + 16 * i. */
  lemma {:induction false} ReadRecordsAt(h: HostOrder, buf: seq<byte>, n: nat, i: nat)
    requires 8 + 16 * n <= |buf| && i < n
    ensures ReadRecords(h, buf, n)[i] == ReadRecord(h, buf, 8 + 16 * i)
  {
    if i < n - 1 {
      ReadRecordsAt(h, buf, n - 1, i);
    }
  }

  /** Victim i of an AnnihilationResults frame is read at offset 12 + 4 * i. */
  lemma {:induction false} ReadVictimsAt(h: HostOrder, buf: seq<byte>, n: nat, i: nat)
    requires 12 + 4 * n <= |buf| && i < n
    ensures ReadVictims(h, buf, n)[i] == ToInt32(ReadWord(h, buf, 12 + 4 * i))
  {
    if i < n - 1 {
      ReadVictimsAt(h, buf, n - 1, i);
    }
  }

  lemma ReadRecordsAll(h: HostOrder, buf: seq<byte>, n: nat)
    requires 8 + 16 * n <= |buf|
    ensures forall i :: 0 <= i < n ==> ReadRecords(h, buf, n)[i] == ReadRecord(h, buf, 8 + 16 * i)
  {
    forall i | 0 <= i < n
      ensures ReadRecords(h, buf, n)[i] == ReadRecord(h, buf, 8 + 16 * i)
    {
      ReadRecordsAt(h, buf, n, i);
    }
  }

  lemma ReadVictimsAll(h: HostOrder, buf: seq<byte>, n: nat)
    requires 12 + 4 * n <= |buf|
    ensures forall i :: 0 <= i < n ==> ReadVictims(h, buf, n)[i] == ToInt32(ReadWord(h, buf, 12 + 4 * i))
  {
    forall i | 0 <= i < n
      ensures ReadVictims(h, buf, n)[i] == ToInt32(ReadWord(h, buf, 12 + 4 * i))
    {
      ReadVictimsAt(h, buf, n, i);
    }
  }

  /** The length rule of each server message code, on the declared length. */
  predicate LengthAccepted(code: byte, numBytes: int)
  {
    if code == PLAYER_JOIN_RESPONSE then numBytes == 10
    else if code == SERVER_MAP_UPDATE then numBytes >= 8
    else if code == PLAYER_SPAWN_WITH_ID then numBytes == 22
    else if code == ANNIHILATION_RESULTS then numBytes >= 12
    else false
  }

  /**
   * processServerMessage's decoding of the receive buffer after a recv of
   * `bytes` bytes: the whole buffer is passed, since records are read
   * wherever the counts put them, even beyond the declared length.
   */
  function Decode(h: HostOrder, buf: seq<byte>, bytes: int): Result<ServerMessage, DecodeError>
    requires |buf| == BUFFER_SIZE
  {
    var numBytes := FrameLength(h, buf);
    if bytes < numBytes then Err(ShortFrame)
    else if buf[4] != VERSION_NUM then Err(WrongVersion)
    else
      var code := buf[5];
      if code == PLAYER_JOIN_RESPONSE then
        if numBytes != 10 then Err(WrongLength(code))
        else Ok(JoinResponse(ToInt32(ReadWord(h, buf, 6))))
      else if code == SERVER_MAP_UPDATE then
        if numBytes < 8 then Err(WrongLength(code))
        else
          var n := NonNegative(ToInt16(ReadHalf(h, buf, 6)));
          if n > MAX_RECORDS then Err(PastBuffer)
          else Ok(MapUpdate(ReadRecords(h, buf, n)))
      else if code == PLAYER_SPAWN_WITH_ID then
        if numBytes != 22 then Err(WrongLength(code))
        else Ok(SpawnWithId(ToInt32(ReadWord(h, buf, 6)), ReadWord(h, buf, 10), ReadWord(h, buf, 14), ReadWord(h, buf, 18)))
      else if code == ANNIHILATION_RESULTS then
        if numBytes < 12 then Err(WrongLength(code))
        else
          var numKills := ToInt16(ReadHalf(h, buf, 10));
          var n := NonNegative(numKills);
          if n > MAX_VICTIMS then Err(PastBuffer)
          else Ok(AnnihilationResults(ToInt32(ReadWord(h, buf, 6)), numKills, ReadVictims(h, buf, n)))
      else Err(UnknownCode(code))
  }

  /** The header checks, in order: a declared length beyond what was
      received, a wrong version byte, a code outside 4..7. */
  lemma DecodeRejects(h: HostOrder, buf: seq<byte>, bytes: int)
    requires |buf| == BUFFER_SIZE
    ensures bytes < FrameLength(h, buf) ==> Decode(h, buf, bytes) == Err(ShortFrame)
    ensures bytes >= FrameLength(h, buf) && buf[4] != VERSION_NUM ==> Decode(h, buf, bytes) == Err(WrongVersion)
    ensures bytes >= FrameLength(h, buf) && buf[4] == VERSION_NUM && !IsServerCode(buf[5])
            ==> Decode(h, buf, bytes) == Err(UnknownCode(buf[5]))
  {
  }

  /** A frame is accepted exactly when it is all there, has the right
      version, a server code whose length rule holds, and a count whose
      records fit in the buffer; the message kind follows the code. */
  lemma DecodeAccepts(h: HostOrder, buf: seq<byte>, bytes: int)
    requires |buf| == BUFFER_SIZE
    ensures Decode(h, buf, bytes).Ok? <==>
      && FrameLength(h, buf) <= bytes
      && buf[4] == VERSION_NUM
      && LengthAccepted(buf[5], FrameLength(h, buf))
      && (buf[5] == SERVER_MAP_UPDATE ==> ToInt16(ReadHalf(h, buf, 6)) <= MAX_RECORDS)
      && (buf[5] == ANNIHILATION_RESULTS ==> ToInt16(ReadHalf(h, buf, 10)) <= MAX_VICTIMS)
    ensures Decode(h, buf, bytes).Ok? ==>
      && (Decode(h, buf, bytes).value.JoinResponse? <==> buf[5] == PLAYER_JOIN_RESPONSE)
      && (Decode(h, buf, bytes).value.MapUpdate? <==> buf[5] == SERVER_MAP_UPDATE)
      && (Decode(h, buf, bytes).value.SpawnWithId? <==> buf[5] == PLAYER_SPAWN_WITH_ID)
      && (Decode(h, buf, bytes).value.AnnihilationResults? <==> buf[5] == ANNIHILATION_RESULTS)
  {
  }

  /** The fields of a JoinResponse: the id at offset 6. */
  lemma DecodeJoinResponse(h: HostOrder, buf: seq<byte>, bytes: int)
    requires |buf| == BUFFER_SIZE && Decode(h, buf, bytes).Ok? && buf[5] == PLAYER_JOIN_RESPONSE
    ensures FrameLength(h, buf) == 10
    ensures Decode(h, buf, bytes).value == JoinResponse(ToInt32(ReadWord(h, buf, 6)))
  {
  }

  /** The fields of a SpawnWithId: the id at offset 6, x, y, z at 10, 14, 18. */
  lemma DecodeSpawnWithId(h: HostOrder, buf: seq<byte>, bytes: int)
    requires |buf| == BUFFER_SIZE && Decode(h, buf, bytes).Ok? && buf[5] == PLAYER_SPAWN_WITH_ID
    ensures FrameLength(h, buf) == 22
    ensures Decode(h, buf, bytes).value
         == SpawnWithId(ToInt32(ReadWord(h, buf, 6)), ReadWord(h, buf, 10), ReadWord(h, buf, 14), ReadWord(h, buf, 18))
  {
  }

  /** A MapUpdate carries as many records as its count says (none for a
      count of 0 or less), record i read at offset 8 + 16 * i. */
  lemma DecodeMapUpdate(h: HostOrder, buf: seq<byte>, bytes: int)
    requires |buf| == BUFFER_SIZE && Decode(h, buf, bytes).Ok? && buf[5] == SERVER_MAP_UPDATE
    ensures var rs := Decode(h, buf, bytes).value.records;
      && FrameLength(h, buf) >= 8
      && |rs| == NonNegative(ToInt16(ReadHalf(h, buf, 6)))
      && |rs| <= MAX_RECORDS
      && (forall i :: 0 <= i < |rs| ==> rs[i] == ReadRecord(h, buf, 8 + 16 * i))
  {
    var n := NonNegative(ToInt16(ReadHalf(h, buf, 6)));
    assert Decode(h, buf, bytes).value.records == ReadRecords(h, buf, n);
    ReadRecordsAll(h, buf, n);
  }

  /** An AnnihilationResults carries the killer at offset 6, the signed kill
      count at 10, and as many victims as a positive count says, victim i
      read at offset 12 + 4 * i. */
  lemma DecodeAnnihilationResults(h: HostOrder, buf: seq<byte>, bytes: int)
    requires |buf| == BUFFER_SIZE && Decode(h, buf, bytes).Ok? && buf[5] == ANNIHILATION_RESULTS
    ensures var m := Decode(h, buf, bytes).value;
      && FrameLength(h, buf) >= 12
      && m.killer == ToInt32(ReadWord(h, buf, 6))
      && m.numKills == ToInt16(ReadHalf(h, buf, 10))
      && |m.victims| == NonNegative(m.numKills)
      && |m.victims| <= MAX_VICTIMS
      && (forall i :: 0 <= i < |m.victims| ==> m.victims[i] == ToInt32(ReadWord(h, buf, 12 + 4 * i)))
  {
    var n := NonNegative(ToInt16(ReadHalf(h, buf, 10)));
    assert Decode(h, buf, bytes).value.victims == ReadVictims(h, buf, n);
    ReadVictimsAll(h, buf, n);
  }

  /** Only the first frame of a buffer is parsed: two buffers that agree on
      their first 22 bytes decode alike, whatever follows, unless the code
      is one of the two variable-length messages. */
  lemma TrailingBytesIgnored(h: HostOrder, buf: seq<byte>, other: seq<byte>, bytes: int)
    requires |buf| == BUFFER_SIZE && |other| == BUFFER_SIZE && buf[..22] == other[..22]
    requires buf[5] != SERVER_MAP_UPDATE && buf[5] != ANNIHILATION_RESULTS
    ensures Decode(h, buf, bytes) == Decode(h, other, bytes)
  {
    forall i | 0 <= i < 22
      ensures buf[i] == other[i]
    {
      assert buf[..22][i] == other[..22][i];
    }
  }

  /** A JoinResponse is decided by its first 10 bytes alone: the length
      field, version, code and the id. */
  lemma JoinResponseReadsTenBytes(h: HostOrder, buf: seq<byte>, other: seq<byte>, bytes: int)
    requires |buf| == BUFFER_SIZE && |other| == BUFFER_SIZE && buf[..10] == other[..10]
    requires buf[5] == PLAYER_JOIN_RESPONSE
    ensures Decode(h, buf, bytes) == Decode(h, other, bytes)
  {
    forall i | 0 <= i < 10
      ensures buf[i] == other[i]
    {
      assert buf[..10][i] == other[..10][i];
    }
  }

  /** The record count of a MapUpdate is not checked against the declared
      length: a frame declaring 8 bytes and one record is accepted, and the
      record is read from the 16 bytes after the frame. */
  lemma DeclaredLengthNotChecked(h: HostOrder, buf: seq<byte>, bytes: int)
    requires |buf| == BUFFER_SIZE && FrameLength(h, buf) == 8 <= bytes
    requires buf[4] == VERSION_NUM && buf[5] == SERVER_MAP_UPDATE && ToInt16(ReadHalf(h, buf, 6)) == 1
    ensures Decode(h, buf, bytes) == Ok(MapUpdate([ReadRecord(h, buf, 8)]))
  {
    var n := NonNegative(ToInt16(ReadHalf(h, buf, 6)));
    assert n == 1;
    assert Decode(h, buf, bytes) == Ok(MapUpdate(ReadRecords(h, buf, n)));
    assert ReadRecords(h, buf, 0) == [];
    assert ReadRecords(h, buf, 1) == [] + [ReadRecord(h, buf, 8)] == [ReadRecord(h, buf, 8)];
  }

  // Client frames, as the three send functions lay them out.

  function Header(h: HostOrder, numBytes: word, code: byte): (r: seq<byte>)
    ensures |r| == 6
  {
    WordBytes(h, numBytes) + [VERSION_NUM, code]
  }

  function SpawnFrame(h: HostOrder, x: word, y: word, z: word): (r: seq<byte>)
    ensures |r| == 18
  {
    Header(h, 18, PLAYER_SPAWN) + WordBytes(h, x) + WordBytes(h, y) + WordBytes(h, z)
  }

  function MoveFrame(h: HostOrder, x: word, y: word, z: word): (r: seq<byte>)
    ensures |r| == 18
  {
    Header(h, 18, PLAYER_MOVE) + WordBytes(h, x) + WordBytes(h, y) + WordBytes(h, z)
  }

  function SelfAnnihilateFrame(h: HostOrder): (r: seq<byte>)
    ensures |r| == 6
  {
    Header(h, 6, PLAYER_SELF_ANNIHILATE)
  }

  /** `buf` holds `frame` from offset 0: every slice of the frame is the
      same slice of the buffer. */
  lemma SliceOfPrefix(buf: seq<byte>, frame: seq<byte>, a: nat, b: nat)
    requires |frame| <= |buf| && buf[..|frame|] == frame && a <= b <= |frame|
    ensures buf[a..b] == frame[a..b]
  {
    forall i | 0 <= i < |frame|
      ensures buf[i] == frame[i]
    {
      assert buf[..|frame|][i] == buf[i];
    }
  }

  lemma HeaderFields(h: HostOrder, numBytes: word, code: byte, buf: seq<byte>)
    requires 6 <= |buf| && buf[..6] == Header(h, numBytes, code)
    ensures ReadWord(h, buf, 0) == numBytes && buf[4] == VERSION_NUM && buf[5] == code
  {
    SliceOfPrefix(buf, Header(h, numBytes, code), 0, 4);
    assert Header(h, numBytes, code)[0..4] == WordBytes(h, numBytes);
    ReadWordOfWordBytes(h, numBytes, buf, 0);
    assert buf[4] == buf[..6][4] && buf[5] == buf[..6][5];
  }

  /** Three words following a six-byte header read back at 6, 10 and 14. */
  lemma CoordinatesRead(h: HostOrder, hd: seq<byte>, x: word, y: word, z: word, buf: seq<byte>)
    requires |hd| == 6 && 18 <= |buf| && buf[..18] == hd + WordBytes(h, x) + WordBytes(h, y) + WordBytes(h, z)
    ensures buf[..6] == hd
    ensures ReadWord(h, buf, 6) == x && ReadWord(h, buf, 10) == y && ReadWord(h, buf, 14) == z
  {
    var f := hd + WordBytes(h, x) + WordBytes(h, y) + WordBytes(h, z);
    assert f[..6] == hd;
    assert f[6..10] == WordBytes(h, x);
    assert f[10..14] == WordBytes(h, y);
    assert f[14..18] == WordBytes(h, z);
    assert buf[..6] == buf[..18][..6];
    SliceOfPrefix(buf, f, 6, 10);
    SliceOfPrefix(buf, f, 10, 14);
    SliceOfPrefix(buf, f, 14, 18);
    ReadWordOfWordBytes(h, x, buf, 6);
    ReadWordOfWordBytes(h, y, buf, 10);
    ReadWordOfWordBytes(h, z, buf, 14);
  }

  /** A Move or Spawn frame read with the decoder's own field reads: length
      18, version 1, its code, and the three coordinates back. */
  lemma MoveAndSpawnFramesReadBack(h: HostOrder, x: word, y: word, z: word, tail: seq<byte>)
    ensures var buf := MoveFrame(h, x, y, z) + tail;
      && FrameLength(h, buf) == 18 && buf[4] == VERSION_NUM && buf[5] == PLAYER_MOVE
      && ReadWord(h, buf, 6) == x && ReadWord(h, buf, 10) == y && ReadWord(h, buf, 14) == z
    ensures var buf := SpawnFrame(h, x, y, z) + tail;
      && FrameLength(h, buf) == 18 && buf[4] == VERSION_NUM && buf[5] == PLAYER_SPAWN
      && ReadWord(h, buf, 6) == x && ReadWord(h, buf, 10) == y && ReadWord(h, buf, 14) == z
  {
    var m := MoveFrame(h, x, y, z) + tail;
    assert m[..18] == MoveFrame(h, x, y, z);
    CoordinatesRead(h, Header(h, 18, PLAYER_MOVE), x, y, z, m);
    HeaderFields(h, 18, PLAYER_MOVE, m);
    var s := SpawnFrame(h, x, y, z) + tail;
    assert s[..18] == SpawnFrame(h, x, y, z);
    CoordinatesRead(h, Header(h, 18, PLAYER_SPAWN), x, y, z, s);
    HeaderFields(h, 18, PLAYER_SPAWN, s);
  }

  lemma SelfAnnihilateFrameReadsBack(h: HostOrder, tail: seq<byte>)
    ensures var buf := SelfAnnihilateFrame(h) + tail;
      FrameLength(h, buf) == 6 && buf[4] == VERSION_NUM && buf[5] == PLAYER_SELF_ANNIHILATE
  {
    var buf := SelfAnnihilateFrame(h) + tail;
    assert buf[..6] == SelfAnnihilateFrame(h);
    HeaderFields(h, 6, PLAYER_SELF_ANNIHILATE, buf);
  }

  // A reference server encoder: the frames this client can decode.

  datatype WireRecord = WireRecord(id: word, x: word, y: word, z: word)

  datatype ServerFrame =
    | JoinFrame(id: word)
    | MapFrame(count: half, records: seq<WireRecord>)
    | SpawnIdFrame(id: word, x: word, y: word, z: word)
    | AnnihilationFrame(killer: word, numKills: half, victims: seq<word>)

  function RecordBytes(h: HostOrder, r: WireRecord): (b: seq<byte>)
    ensures |b| == 16
  {
    WordBytes(h, r.id) + WordBytes(h, r.x) + WordBytes(h, r.y) + WordBytes(h, r.z)
  }

  function RecordsBytes(h: HostOrder, rs: seq<WireRecord>): (b: seq<byte>)
    ensures |b| == 16 * |rs|
  {
    var chunks := seq(|rs|, i requires 0 <= i < |rs| => RecordBytes(h, rs[i]));
    ConcatLength(chunks, 16);
    Concat(chunks)
  }

  function WordsBytes(h: HostOrder, ws: seq<word>): (b: seq<byte>)
    ensures |b| == 4 * |ws|
  {
    var chunks := seq(|ws|, i requires 0 <= i < |ws| => WordBytes(h, ws[i]));
    ConcatLength(chunks, 4);
    Concat(chunks)
  }

  function EncodeServer(h: HostOrder, numBytes: word, f: ServerFrame): seq<byte>
  {
    match f
    case JoinFrame(id) => Header(h, numBytes, PLAYER_JOIN_RESPONSE) + WordBytes(h, id)
    case MapFrame(count, rs) => Header(h, numBytes, SERVER_MAP_UPDATE) + HalfBytes(h, count) + RecordsBytes(h, rs)
    case SpawnIdFrame(id, x, y, z) =>
      Header(h, numBytes, PLAYER_SPAWN_WITH_ID) + WordBytes(h, id) + WordBytes(h, x) + WordBytes(h, y) + WordBytes(h, z)
    case AnnihilationFrame(killer, numKills, vs) =>
      Header(h, numBytes, ANNIHILATION_RESULTS) + WordBytes(h, killer) + HalfBytes(h, numKills) + WordsBytes(h, vs)
  }

  /** A frame is consistent when its length field is its size and its
      counts are the numbers of records that follow. */
  predicate Consistent(h: HostOrder, numBytes: word, f: ServerFrame)
  {
    && numBytes == |EncodeServer(h, numBytes, f)|
    && (f.MapFrame? ==> ToInt16(f.count) == |f.records|)
    && (f.AnnihilationFrame? ==> ToInt16(f.numKills) == |f.victims|)
  }

  function AsRecord(r: WireRecord): Record
  {
    Record(ToInt32(r.id), r.x, r.y, r.z)
  }

  /** The message a frame carries, as the client reads it. */
  function Meaning(f: ServerFrame): ServerMessage
  {
    match f
    case JoinFrame(id) => JoinResponse(ToInt32(id))
    case MapFrame(count, rs) => MapUpdate(seq(|rs|, i requires 0 <= i < |rs| => AsRecord(rs[i])))
    case SpawnIdFrame(id, x, y, z) => SpawnWithId(ToInt32(id), x, y, z)
    case AnnihilationFrame(killer, numKills, vs) =>
      AnnihilationResults(ToInt32(killer), ToInt16(numKills), seq(|vs|, i requires 0 <= i < |vs| => ToInt32(vs[i])))
  }

  lemma ReadRecordOfBytes(h: HostOrder, buf: seq<byte>, at: nat, r: WireRecord)
    requires at + 16 <= |buf| && buf[at..at + 16] == RecordBytes(h, r)
    ensures ReadRecord(h, buf, at) == AsRecord(r)
  {
    var i, x, y, z := WordBytes(h, r.id), WordBytes(h, r.x), WordBytes(h, r.y), WordBytes(h, r.z);
    SliceSplit(buf, at, i + x + y, z);
    SliceSplit(buf, at, i + x, y);
    SliceSplit(buf, at, i, x);
    ReadWordOfWordBytes(h, r.id, buf, at);
    ReadWordOfWordBytes(h, r.x, buf, at + 4);
    ReadWordOfWordBytes(h, r.y, buf, at + 8);
    ReadWordOfWordBytes(h, r.z, buf, at + 12);
  }

  lemma ReadRecordsOfBytes(h: HostOrder, buf: seq<byte>, rs: seq<WireRecord>)
    requires 8 + 16 * |rs| <= |buf| && buf[8..8 + 16 * |rs|] == RecordsBytes(h, rs)
    ensures forall i :: 0 <= i < |rs| ==> ReadRecords(h, buf, |rs|)[i] == AsRecord(rs[i])
  {
    forall i | 0 <= i < |rs|
      ensures ReadRecords(h, buf, |rs|)[i] == AsRecord(rs[i])
    {
      RecordSliceAt(h, buf, rs, i);
      ReadRecordOfBytes(h, buf, 8 + 16 * i, rs[i]);
      ReadRecordsAt(h, buf, |rs|, i);
    }
  }

  lemma RecordSliceAt(h: HostOrder, buf: seq<byte>, rs: seq<WireRecord>, i: nat)
    requires 8 + 16 * |rs| <= |buf| && buf[8..8 + 16 * |rs|] == RecordsBytes(h, rs) && i < |rs|
    ensures buf[8 + 16 * i..8 + 16 * i + 16] == RecordBytes(h, rs[i])
  {
    var chunks := seq(|rs|, j requires 0 <= j < |rs| => RecordBytes(h, rs[j]));
    assert RecordsBytes(h, rs) == Concat(chunks);
    ConcatChunk(chunks, 16, i);
    assert chunks[i] == RecordBytes(h, rs[i]);
    SliceOfSlice(buf, 8, Concat(chunks), 16 * i, 16 * i + 16);
  }

  lemma ReadVictimsOfBytes(h: HostOrder, buf: seq<byte>, vs: seq<word>)
    requires 12 + 4 * |vs| <= |buf| && buf[12..12 + 4 * |vs|] == WordsBytes(h, vs)
    ensures forall i :: 0 <= i < |vs| ==> ReadVictims(h, buf, |vs|)[i] == ToInt32(vs[i])
  {
    forall i | 0 <= i < |vs|
      ensures ReadVictims(h, buf, |vs|)[i] == ToInt32(vs[i])
    {
      VictimSliceAt(h, buf, vs, i);
      ReadWordOfWordBytes(h, vs[i], buf, 12 + 4 * i);
      ReadVictimsAt(h, buf, |vs|, i);
    }
  }

  lemma VictimSliceAt(h: HostOrder, buf: seq<byte>, vs: seq<word>, i: nat)
    requires 12 + 4 * |vs| <= |buf| && buf[12..12 + 4 * |vs|] == WordsBytes(h, vs) && i < |vs|
    ensures buf[12 + 4 * i..12 + 4 * i + 4] == WordBytes(h, vs[i])
  {
    var chunks := seq(|vs|, j requires 0 <= j < |vs| => WordBytes(h, vs[j]));
    assert WordsBytes(h, vs) == Concat(chunks);
    ConcatChunk(chunks, 4, i);
    assert chunks[i] == WordBytes(h, vs[i]);
    SliceOfSlice(buf, 12, Concat(chunks), 4 * i, 4 * i + 4);
  }

  /** The header of an encoded frame held at the start of the buffer. */
  lemma EncodedHeader(h: HostOrder, numBytes: word, code: byte, body: seq<byte>, buf: seq<byte>)
    requires 6 + |body| <= |buf| && buf[0..6 + |body|] == Header(h, numBytes, code) + body
    ensures FrameLength(h, buf) == numBytes && buf[4] == VERSION_NUM && buf[5] == code
    ensures buf[6..6 + |body|] == body
  {
    SliceSplit(buf, 0, Header(h, numBytes, code), body);
    assert buf[..6] == buf[0..6];
    HeaderFields(h, numBytes, code, buf);
  }

  /** Round trip: the client decodes every consistent server frame held at
      the start of its buffer to the message the frame carries, whatever
      lies after it and however many more bytes were received; the bytes
      after the first frame are never looked at as a further frame. */
  lemma DecodeOfEncoded(h: HostOrder, numBytes: word, f: ServerFrame, buf: seq<byte>, bytes: int)
    requires Consistent(h, numBytes, f)
    requires |buf| == BUFFER_SIZE && numBytes <= bytes && numBytes <= |buf|
    requires buf[..numBytes] == EncodeServer(h, numBytes, f)
    ensures Decode(h, buf, bytes) == Ok(Meaning(f))
  {
    match f
    case JoinFrame(_) => DecodeOfJoinFrame(h, numBytes, f, buf, bytes);
    case SpawnIdFrame(_, _, _, _) => DecodeOfSpawnIdFrame(h, numBytes, f, buf, bytes);
    case MapFrame(_, _) => DecodeOfMapFrame(h, numBytes, f, buf, bytes);
    case AnnihilationFrame(_, _, _) => DecodeOfAnnihilationFrame(h, numBytes, f, buf, bytes);
  }

  lemma PrefixIsFrame(h: HostOrder, numBytes: word, f: ServerFrame, buf: seq<byte>)
    requires numBytes == |EncodeServer(h, numBytes, f)| && numBytes <= |buf|
    requires buf[..numBytes] == EncodeServer(h, numBytes, f)
    ensures buf[0..|EncodeServer(h, numBytes, f)|] == EncodeServer(h, numBytes, f)
  {
    assert buf[0..numBytes] == buf[..numBytes];
  }

  lemma DecodeOfJoinFrame(h: HostOrder, numBytes: word, f: ServerFrame, buf: seq<byte>, bytes: int)
    requires f.JoinFrame? && Consistent(h, numBytes, f)
    requires |buf| == BUFFER_SIZE && numBytes <= bytes && numBytes <= |buf|
    requires buf[..numBytes] == EncodeServer(h, numBytes, f)
    ensures Decode(h, buf, bytes) == Ok(Meaning(f))
  {
    var body := WordBytes(h, f.id);
    PrefixIsFrame(h, numBytes, f, buf);
    EncodedHeader(h, numBytes, PLAYER_JOIN_RESPONSE, body, buf);
    ReadWordOfWordBytes(h, f.id, buf, 6);
  }

  lemma DecodeOfSpawnIdFrame(h: HostOrder, numBytes: word, f: ServerFrame, buf: seq<byte>, bytes: int)
    requires f.SpawnIdFrame? && Consistent(h, numBytes, f)
    requires |buf| == BUFFER_SIZE && numBytes <= bytes && numBytes <= |buf|
    requires buf[..numBytes] == EncodeServer(h, numBytes, f)
    ensures Decode(h, buf, bytes) == Ok(Meaning(f))
  {
    var i, xs, ys, zs := WordBytes(h, f.id), WordBytes(h, f.x), WordBytes(h, f.y), WordBytes(h, f.z);
    PrefixIsFrame(h, numBytes, f, buf);
    assert EncodeServer(h, numBytes, f) == Header(h, numBytes, PLAYER_SPAWN_WITH_ID) + (i + xs + ys + zs);
    EncodedHeader(h, numBytes, PLAYER_SPAWN_WITH_ID, i + xs + ys + zs, buf);
    SpawnBodyRead(h, f.id, f.x, f.y, f.z, buf);
  }

  lemma SpawnBodyRead(h: HostOrder, id: word, x: word, y: word, z: word, buf: seq<byte>)
    requires 22 <= |buf| && buf[6..22] == WordBytes(h, id) + WordBytes(h, x) + WordBytes(h, y) + WordBytes(h, z)
    ensures ReadWord(h, buf, 6) == id && ReadWord(h, buf, 10) == x && ReadWord(h, buf, 14) == y && ReadWord(h, buf, 18) == z
  {
    var i, xs, ys, zs := WordBytes(h, id), WordBytes(h, x), WordBytes(h, y), WordBytes(h, z);
    SliceSplit(buf, 6, i + xs + ys, zs);
    SliceSplit(buf, 6, i + xs, ys);
    SliceSplit(buf, 6, i, xs);
    ReadWordOfWordBytes(h, id, buf, 6);
    ReadWordOfWordBytes(h, x, buf, 10);
    ReadWordOfWordBytes(h, y, buf, 14);
    ReadWordOfWordBytes(h, z, buf, 18);
  }

  lemma DecodeOfMapFrame(h: HostOrder, numBytes: word, f: ServerFrame, buf: seq<byte>, bytes: int)
    requires f.MapFrame? && Consistent(h, numBytes, f)
    requires |buf| == BUFFER_SIZE && numBytes <= bytes && numBytes <= |buf|
    requires buf[..numBytes] == EncodeServer(h, numBytes, f)
    ensures Decode(h, buf, bytes) == Ok(Meaning(f))
  {
    var rs := f.records;
    var c, body := HalfBytes(h, f.count), RecordsBytes(h, rs);
    PrefixIsFrame(h, numBytes, f, buf);
    assert EncodeServer(h, numBytes, f) == Header(h, numBytes, SERVER_MAP_UPDATE) + (c + body);
    EncodedHeader(h, numBytes, SERVER_MAP_UPDATE, c + body, buf);
    SliceSplit(buf, 6, c, body);
    ReadHalfOfHalfBytes(h, f.count, buf, 6);
    ReadRecordsOfBytes(h, buf, rs);
    assert ReadRecords(h, buf, |rs|) == Meaning(f).records;
  }

  lemma DecodeOfAnnihilationFrame(h: HostOrder, numBytes: word, f: ServerFrame, buf: seq<byte>, bytes: int)
    requires f.AnnihilationFrame? && Consistent(h, numBytes, f)
    requires |buf| == BUFFER_SIZE && numBytes <= bytes && numBytes <= |buf|
    requires buf[..numBytes] == EncodeServer(h, numBytes, f)
    ensures Decode(h, buf, bytes) == Ok(Meaning(f))
  {
    var vs := f.victims;
    var k, c, body := WordBytes(h, f.killer), HalfBytes(h, f.numKills), WordsBytes(h, vs);
    PrefixIsFrame(h, numBytes, f, buf);
    assert EncodeServer(h, numBytes, f) == Header(h, numBytes, ANNIHILATION_RESULTS) + (k + c + body);
    EncodedHeader(h, numBytes, ANNIHILATION_RESULTS, k + c + body, buf);
    SliceSplit(buf, 6, k + c, body);
    SliceSplit(buf, 6, k, c);
    ReadWordOfWordBytes(h, f.killer, buf, 6);
    ReadHalfOfHalfBytes(h, f.numKills, buf, 10);
    ReadVictimsOfBytes(h, buf, vs);
    assert ReadVictims(h, buf, |vs|) == Meaning(f).victims;
  }
}
