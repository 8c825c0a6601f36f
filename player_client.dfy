/**
 * The PlayerClient object (PlayerClient.h, PlayerClient.cpp): the receive
 * and send buffers of the server connection, the selected bot type and the
 * bot pointer, with processServerMessage, the three frame builders and the
 * action dispatch of the run loop. The socket calls are outside the model:
 * a recv is its outcome passed in (`failed`, `data`), a send is the frame
 * left in the send buffer and its length.
 */
module PlayerClient {
  import opened Wire
  import opened Codec
  import opened Arena
  import opened BotFactory
  import opened Session
  import DumbBot
  import PunisherBot

  class PlayerClient {
    const host: HostOrder
    const botAIType: int
    const recvBuffer: array<byte>
    const sendBuffer: array<byte>
    var bot: Bot?

    ghost predicate Valid()
      reads this, bot
    {
      && recvBuffer.Length == BUFFER_SIZE
      && sendBuffer.Length == BUFFER_SIZE
      && recvBuffer != sendBuffer
      && (bot != null ==> bot.Valid() && bot.numPlayers == PLAYER_LIMIT)
    }

    /** The bot as a value, or None before a JoinResponse. */
    ghost function View(): (v: Option<BotState>)
      reads this, bot, if bot != null then {bot.players} else {}
      ensures Valid() && v.Some? ==> WellFormed(v.value) && |v.value.players| == PLAYER_LIMIT
    {
      if bot == null then None else Some(bot.State())
    }

    /** The client as the constructor leaves it: two separate zeroed
        buffers (the server record is cleared when the connection is set
        up) and no bot yet. */
    constructor (h: HostOrder, aiType: int)
      ensures Valid() && bot == null
      ensures host == h && botAIType == aiType
      ensures fresh(recvBuffer) && fresh(sendBuffer)
      ensures recvBuffer[..] == seq(BUFFER_SIZE, _ => 0) && sendBuffer[..] == seq(BUFFER_SIZE, _ => 0)
    {
      host := h;
      botAIType := aiType;
      recvBuffer := new byte[BUFFER_SIZE](_ => 0);
      sendBuffer := new byte[BUFFER_SIZE](_ => 0);
      bot := null;
    }

    /** The 32-bit field at `at`, assembled top byte first, then ntohl. */
    method ReadWordAt(at: nat) returns (w: word)
      requires Valid() && at + 4 <= BUFFER_SIZE
      ensures w == ReadWord(host, recvBuffer[..], at)
    {
      var raw := Join32(recvBuffer[at], recvBuffer[at + 1], recvBuffer[at + 2], recvBuffer[at + 3]);
      w := Ntohl(host, raw);
    }

    /** The 16-bit field at `at`, assembled top byte first, then ntohs. */
    method ReadHalfAt(at: nat) returns (x: half)
      requires Valid() && at + 2 <= BUFFER_SIZE
      ensures x == ReadHalf(host, recvBuffer[..], at)
    {
      var raw := Join16(recvBuffer[at], recvBuffer[at + 1]);
      x := Ntohs(host, raw);
    }

    /** One 16-byte MapUpdate record at `at`: the id, then x, y, z. */
    method ReadRecordAt(at: nat) returns (r: Record)
      requires Valid() && at + 16 <= BUFFER_SIZE
      ensures r == ReadRecord(host, recvBuffer[..], at)
    {
      var rawID := ReadWordAt(at);
      var x := ReadWordAt(at + 4);
      var y := ReadWordAt(at + 8);
      var z := ReadWordAt(at + 12);
      r := Record(ToInt32(rawID), x, y, z);
    }

    /** recv's copy of the delivered bytes into the receive buffer. */
    method Deliver(data: seq<byte>)
      requires Valid() && |data| <= BUFFER_SIZE
      modifies recvBuffer
      ensures recvBuffer[..] == Received(old(recvBuffer[..]), data)
    {
      for i := 0 to |data|
        invariant forall j :: 0 <= j < i ==> recvBuffer[j] == data[j]
        invariant forall j :: i <= j < BUFFER_SIZE ==> recvBuffer[j] == old(recvBuffer[j])
      {
        recvBuffer[i] := data[i];
      }
      assert recvBuffer[..] == data + old(recvBuffer[..])[|data|..];
    }

    /**
     * processServerMessage. The return code is -1 for a recv error or a
     * refused frame and 0 otherwise; the bot afterwards is the one the
     * effect of the frame describes: a fresh bot in its constructor state
     * after a JoinResponse, the updated bot after the other messages, and
     * the bot as it was when the frame is refused or there is no bot.
     */
    method ProcessServerMessage(failed: bool, data: seq<byte>, now: int, floatOf: word -> real)
      returns (res: int)
      requires Valid() && |data| <= BUFFER_SIZE
      modifies this, recvBuffer, bot, if bot != null then {bot.players} else {}
      ensures Valid()
      ensures recvBuffer[..] == if failed then old(recvBuffer[..]) else Received(old(recvBuffer[..]), data)
      ensures var e := Process(host, old(View()), botAIType, failed, data, old(recvBuffer[..]), now, floatOf);
        && res == ReturnCode(e)
        && (e.Fail? || e.Quiet? ==> bot == old(bot) && View() == old(View()))
        && (e.NewBot? ==> && bot != null && fresh(bot) && bot.strategy == e.strategy
                          && IsInitial(bot.State(), PLAYER_LIMIT, e.id))
        && (e.Updated? ==> bot == old(bot) && bot != null && bot.State() == e.state)
    {
      if failed {
        return -1;
      }
      if |data| == 0 {
        return 0;
      }
      Deliver(data);
      res := HandleFrame(|data|, now, floatOf);
    }

    /** The header checks of the frame at the front of the receive buffer,
        then the handling of its message code. */
    method HandleFrame(bytes: int, now: int, floatOf: word -> real) returns (res: int)
      requires Valid() && 0 < bytes <= BUFFER_SIZE
      modifies this, bot, if bot != null then {bot.players} else {}
      ensures Valid()
      ensures var e := DecodeEffect(host, old(View()), botAIType, recvBuffer[..], bytes, now, floatOf);
        && res == ReturnCode(e)
        && (e.Fail? || e.Quiet? ==> bot == old(bot) && View() == old(View()))
        && (e.NewBot? ==> && bot != null && fresh(bot) && bot.strategy == e.strategy
                          && IsInitial(bot.State(), PLAYER_LIMIT, e.id))
        && (e.Updated? ==> bot == old(bot) && bot != null && bot.State() == e.state)
    {
      var numBytes := ReadWordAt(0);
      if bytes < numBytes {
        return -1;
      }
      if recvBuffer[4] != VERSION_NUM {
        return -1;
      }
      var code := recvBuffer[5];
      if code == PLAYER_JOIN_RESPONSE {
        res := HandleJoinResponse(bytes, numBytes, now, floatOf);
      } else if code == SERVER_MAP_UPDATE {
        res := HandleMapUpdate(bytes, numBytes, now, floatOf);
      } else if code == PLAYER_SPAWN_WITH_ID {
        res := HandleSpawnWithId(bytes, numBytes, now, floatOf);
      } else if code == ANNIHILATION_RESULTS {
        res := HandleAnnihilationResults(bytes, numBytes, now, floatOf);
      } else {
        return -1;
      }
    }

    /** PLAYER_JOIN_RESPONSE: exactly 10 bytes; a new bot for the id. */
    method HandleJoinResponse(bytes: int, numBytes: int, now: int, floatOf: word -> real) returns (res: int)
      requires Valid() && 0 < bytes <= BUFFER_SIZE && numBytes == FrameLength(host, recvBuffer[..])
      requires numBytes <= bytes && recvBuffer[4] == VERSION_NUM && recvBuffer[5] == PLAYER_JOIN_RESPONSE
      modifies this
      ensures Valid()
      ensures var e := DecodeEffect(host, old(View()), botAIType, recvBuffer[..], bytes, now, floatOf);
        && res == ReturnCode(e)
        && (e.Fail? || e.Quiet? ==> bot == old(bot) && View() == old(View()))
        && (e.NewBot? ==> && bot != null && fresh(bot) && bot.strategy == e.strategy
                          && IsInitial(bot.State(), PLAYER_LIMIT, e.id))
        && (e.Updated? ==> bot == old(bot) && bot != null && bot.State() == e.state)
    {
      if numBytes != 10 {
        return -1;
      }
      var rawBits := ReadWordAt(6);
      var botID := ToInt32(rawBits);
      if !(0 <= botID < PLAYER_LIMIT) {
        return -1;
      }
      bot := CreateBot(botAIType, PLAYER_LIMIT, botID);
      return 0;
    }

    /** SERVER_MAP_UPDATE: at least 8 bytes; the records, if there is a bot. */
    method HandleMapUpdate(bytes: int, numBytes: int, now: int, floatOf: word -> real) returns (res: int)
      requires Valid() && 0 < bytes <= BUFFER_SIZE && numBytes == FrameLength(host, recvBuffer[..])
      requires numBytes <= bytes && recvBuffer[4] == VERSION_NUM && recvBuffer[5] == SERVER_MAP_UPDATE
      modifies if bot != null then {bot.players} else {}
      ensures Valid()
      ensures var e := DecodeEffect(host, old(View()), botAIType, recvBuffer[..], bytes, now, floatOf);
        && res == ReturnCode(e)
        && (e.Fail? || e.Quiet? ==> bot == old(bot) && View() == old(View()))
        && (e.NewBot? ==> && bot != null && fresh(bot) && bot.strategy == e.strategy
                          && IsInitial(bot.State(), PLAYER_LIMIT, e.id))
        && (e.Updated? ==> bot == old(bot) && bot != null && bot.State() == e.state)
    {
      if numBytes < 8 {
        return -1;
      }
      var rawNumPlayers := ReadHalfAt(6);
      var numPlayers := ToInt16(rawNumPlayers);
      if numPlayers > MAX_RECORDS as int {
        return -1;
      }
      ghost var rs := Decode(host, recvBuffer[..], bytes).value.records;
      DecodeMapUpdate(host, recvBuffer[..], bytes);
      res := 0;
      if bot != null {
        res := ApplyMapUpdate(rs, numPlayers, floatOf);
      }
    }

    /** PLAYER_SPAWN_WITH_ID: exactly 22 bytes; a spawn update, if there is a bot. */
    method HandleSpawnWithId(bytes: int, numBytes: int, now: int, floatOf: word -> real) returns (res: int)
      requires Valid() && 0 < bytes <= BUFFER_SIZE && numBytes == FrameLength(host, recvBuffer[..])
      requires numBytes <= bytes && recvBuffer[4] == VERSION_NUM && recvBuffer[5] == PLAYER_SPAWN_WITH_ID
      modifies if bot != null then {bot.players} else {}
      ensures Valid()
      ensures var e := DecodeEffect(host, old(View()), botAIType, recvBuffer[..], bytes, now, floatOf);
        && res == ReturnCode(e)
        && (e.Fail? || e.Quiet? ==> bot == old(bot) && View() == old(View()))
        && (e.NewBot? ==> && bot != null && fresh(bot) && bot.strategy == e.strategy
                          && IsInitial(bot.State(), PLAYER_LIMIT, e.id))
        && (e.Updated? ==> bot == old(bot) && bot != null && bot.State() == e.state)
    {
      if numBytes != 22 {
        return -1;
      }
      var rawID := ReadWordAt(6);
      var playerID := ToInt32(rawID);
      var x := ReadWordAt(10);
      var y := ReadWordAt(14);
      var z := ReadWordAt(18);
      if bot != null {
        if !(0 <= playerID < bot.numPlayers) {
          return -1;
        }
        bot.PlayerSpawnUpdate(playerID, floatOf(x), floatOf(y), floatOf(z));
      }
      return 0;
    }

    /** ANNIHILATION_RESULTS: at least 12 bytes; the killer and its victims,
        if there is a bot. */
    method HandleAnnihilationResults(bytes: int, numBytes: int, now: int, floatOf: word -> real) returns (res: int)
      requires Valid() && 0 < bytes <= BUFFER_SIZE && numBytes == FrameLength(host, recvBuffer[..])
      requires numBytes <= bytes && recvBuffer[4] == VERSION_NUM && recvBuffer[5] == ANNIHILATION_RESULTS
      modifies if bot != null then {bot, bot.players} else {}
      ensures Valid()
      ensures var e := DecodeEffect(host, old(View()), botAIType, recvBuffer[..], bytes, now, floatOf);
        && res == ReturnCode(e)
        && (e.Fail? || e.Quiet? ==> bot == old(bot) && View() == old(View()))
        && (e.NewBot? ==> && bot != null && fresh(bot) && bot.strategy == e.strategy
                          && IsInitial(bot.State(), PLAYER_LIMIT, e.id))
        && (e.Updated? ==> bot == old(bot) && bot != null && bot.State() == e.state)
    {
      if numBytes < 12 {
        return -1;
      }
      var rawID := ReadWordAt(6);
      var killerID := ToInt32(rawID);
      var rawNumKills := ReadHalfAt(10);
      var numKills := ToInt16(rawNumKills);
      if numKills > MAX_VICTIMS as int {
        return -1;
      }
      ghost var vs := Decode(host, recvBuffer[..], bytes).value.victims;
      DecodeAnnihilationResults(host, recvBuffer[..], bytes);
      res := 0;
      if bot != null {
        res := ApplyAnnihilation(vs, killerID, numKills, now);
      }
    }

    /** The MapUpdate record loop, on an existing bot, given the records the
        decoder reads: every record id checked first, then one location
        update per record, in order. */
    method ApplyMapUpdate(ghost rs: seq<Record>, numPlayers: int, floatOf: word -> real) returns (res: int)
      requires Valid() && bot != null
      requires |rs| == NonNegative(numPlayers) && |rs| <= MAX_RECORDS
      requires forall i :: 0 <= i < |rs| ==> rs[i] == ReadRecord(host, recvBuffer[..], 8 + 16 * i)
      modifies bot.players
      ensures Valid()
      ensures res == (if RecordsInSlots(old(bot.State()), rs) then 0 else -1)
      ensures RecordsInSlots(old(bot.State()), rs) ==> bot.State() == ApplyLocations(old(bot.State()), rs, floatOf)
      ensures !RecordsInSlots(old(bot.State()), rs) ==> bot.State() == old(bot.State())
    {
      ghost var s := bot.State();
      var ok := RecordIdsInRange(rs, numPlayers, bot.numPlayers);
      if !ok {
        return -1;
      }
      var i := 0;
      var index := 8;
      assert rs[..0] == [];
      while i < numPlayers
        invariant 0 <= i <= |rs| && index == 8 + 16 * i
        invariant bot.Valid() && bot.State() == ApplyLocations(s, rs[..i], floatOf)
      {
        var r := ReadRecordAt(index);
        assert r == rs[i];
        ApplyLocationsStep(s, rs, floatOf, i);
        bot.PlayerLocationUpdate(r.id, floatOf(r.x), floatOf(r.y), floatOf(r.z));
        i := i + 1;
        index := index + 16;
      }
      assert rs[..i] == rs;
      return 0;
    }

    /** The AnnihilationResults handling, on an existing bot, given the
        fields the decoder reads: every id checked first, then the killer's
        death, its score, and the victims in order. */
    method ApplyAnnihilation(ghost vs: seq<int>, killerID: int, numKills: int, now: int) returns (res: int)
      requires Valid() && bot != null
      requires |vs| == NonNegative(numKills) && |vs| <= MAX_VICTIMS
      requires forall i :: 0 <= i < |vs| ==> vs[i] == ToInt32(ReadWord(host, recvBuffer[..], 12 + 4 * i))
      modifies bot.players, bot`lastActionTime, bot`killerID
      ensures Valid()
      ensures var ok := InSlots(old(bot.State()), killerID) && VictimsInSlots(old(bot.State()), vs);
        && res == (if ok then 0 else -1)
        && (ok ==> bot.State() == Annihilation(old(bot.State()), killerID, numKills, vs, now))
        && (!ok ==> bot.State() == old(bot.State()))
    {
      if !(0 <= killerID < bot.numPlayers) {
        return -1;
      }
      var ok := VictimIdsInRange(vs, numKills, bot.numPlayers);
      if !ok {
        return -1;
      }
      bot.PlayerKilledUpdate(killerID, now);
      if bot.botID == killerID {
        bot.IncrementScore(numKills);
      }
      ApplyVictimsAt(vs, killerID, numKills, now);
      return 0;
    }

    /** The victim loop: each victim read at 12 + 4 * i dies, and when it is
        the bot itself the bot remembers the killer. */
    method ApplyVictimsAt(ghost vs: seq<int>, killerID: int, numKills: int, now: int)
      requires Valid() && bot != null
      requires |vs| == NonNegative(numKills) && |vs| <= MAX_VICTIMS
      requires forall i :: 0 <= i < |vs| ==> vs[i] == ToInt32(ReadWord(host, recvBuffer[..], 12 + 4 * i))
      requires InSlots(bot.State(), killerID) && VictimsInSlots(bot.State(), vs)
      modifies bot.players, bot`lastActionTime, bot`killerID
      ensures Valid()
      ensures bot.State() == ApplyVictims(old(bot.State()), killerID, vs, now)
    {
      ghost var s := bot.State();
      var i := 0;
      var index := 12;
      assert vs[..0] == [];
      while i < numKills
        invariant 0 <= i <= |vs| && index == 12 + 4 * i
        invariant Valid() && bot.State() == ApplyVictims(s, killerID, vs[..i], now)
      {
        var rawID := ReadWordAt(index);
        var playerID := ToInt32(rawID);
        assert vs[i] == playerID;
        ApplyVictimsStep(s, killerID, vs, now, i);
        KillVictim(playerID, killerID, now);
        i := i + 1;
        index := index + 4;
      }
      assert vs[..i] == vs;
    }

    /** One pass of the victim loop's body. */
    method KillVictim(playerID: int, killerID: int, now: int)
      requires Valid() && bot != null && 0 <= playerID < bot.numPlayers && 0 <= killerID < bot.numPlayers
      modifies bot.players, bot`lastActionTime, bot`killerID
      ensures Valid()
      ensures bot.State() == VictimUpdate(old(bot.State()), killerID, playerID, now)
    {
      bot.PlayerKilledUpdate(playerID, now);
      if bot.botID == playerID {
        bot.SetKiller(killerID);
      }
    }

    /** The id check of every MapUpdate record, walking the records as the
        update loop does. */
    method RecordIdsInRange(ghost rs: seq<Record>, count: int, numPlayers: int) returns (ok: bool)
      requires Valid()
      requires |rs| == NonNegative(count) && |rs| <= MAX_RECORDS
      requires forall i :: 0 <= i < |rs| ==> rs[i] == ReadRecord(host, recvBuffer[..], 8 + 16 * i)
      ensures ok <==> forall k :: 0 <= k < |rs| ==> 0 <= rs[k].id < numPlayers
    {
      var i := 0;
      var index := 8;
      while i < count
        invariant 0 <= i <= |rs| && index == 8 + 16 * i
        invariant forall k :: 0 <= k < i ==> 0 <= rs[k].id < numPlayers
      {
        var rawID := ReadWordAt(index);
        var playerID := ToInt32(rawID);
        if !(0 <= playerID < numPlayers) {
          assert rs[i].id == playerID;
          return false;
        }
        i := i + 1;
        index := index + 16;
      }
      return true;
    }

    /** The id check of every victim of an AnnihilationResults. */
    method VictimIdsInRange(ghost vs: seq<int>, numKills: int, numPlayers: int) returns (ok: bool)
      requires Valid()
      requires |vs| == NonNegative(numKills) && |vs| <= MAX_VICTIMS
      requires forall i :: 0 <= i < |vs| ==> vs[i] == ToInt32(ReadWord(host, recvBuffer[..], 12 + 4 * i))
      ensures ok <==> forall k :: 0 <= k < |vs| ==> 0 <= vs[k] < numPlayers
    {
      var i := 0;
      var index := 12;
      while i < numKills
        invariant 0 <= i <= |vs| && index == 12 + 4 * i
        invariant forall k :: 0 <= k < i ==> 0 <= vs[k] < numPlayers
      {
        var rawID := ReadWordAt(index);
        var playerID := ToInt32(rawID);
        if !(0 <= playerID < numPlayers) {
          assert vs[i] == playerID;
          return false;
        }
        i := i + 1;
        index := index + 4;
      }
      return true;
    }

    /** A 32-bit field at `at`: htonl, then GET_BYTE_3 .. GET_BYTE_0. */
    method PutWord(at: nat, x: word)
      requires Valid() && at + 4 <= BUFFER_SIZE
      modifies sendBuffer
      ensures sendBuffer[at..at + 4] == WordBytes(host, x)
      ensures forall j :: 0 <= j < BUFFER_SIZE && !(at <= j < at + 4) ==> sendBuffer[j] == old(sendBuffer[j])
    {
      var converted := Htonl(host, x);
      sendBuffer[at] := GetByte3(converted);
      sendBuffer[at + 1] := GetByte2(converted);
      sendBuffer[at + 2] := GetByte1(converted);
      sendBuffer[at + 3] := GetByte0(converted);
    }

    /** The common header: length, version and message code. */
    method PutHeader(numBytes: word, code: byte)
      requires Valid()
      modifies sendBuffer
      ensures sendBuffer[..6] == Header(host, numBytes, code)
      ensures forall j :: 6 <= j < BUFFER_SIZE ==> sendBuffer[j] == old(sendBuffer[j])
    {
      PutWord(0, numBytes);
      sendBuffer[4] := VERSION_NUM;
      sendBuffer[5] := code;
      assert sendBuffer[..6] == sendBuffer[0..4] + [sendBuffer[4], sendBuffer[5]];
    }

    /** The 18-byte frame of the spawn and move builders: the header, then
        the x, y and z words. */
    method WriteCoordinateFrame(code: byte, x: word, y: word, z: word)
      requires Valid()
      modifies sendBuffer
      ensures sendBuffer[..18] == Header(host, 18, code) + WordBytes(host, x) + WordBytes(host, y) + WordBytes(host, z)
      ensures sendBuffer[18..] == old(sendBuffer[18..])
    {
      PutHeader(18, code);
      ghost var hd := sendBuffer[..6];
      PutWord(6, x);
      ghost var a := sendBuffer[..10];
      assert a == hd + WordBytes(host, x);
      PutWord(10, y);
      ghost var b := sendBuffer[..14];
      assert b == a + WordBytes(host, y);
      PutWord(14, z);
      assert sendBuffer[..18] == b + WordBytes(host, z);
    }

    /** sendPlayerSpawnMessage's frame: the bot's own position, as raw bits. */
    method SendPlayerSpawnMessage(bitsOf: real -> word) returns (numBytes: nat)
      requires Valid() && bot != null
      modifies sendBuffer
      ensures var p := Self(bot.State()).pos;
        numBytes == 18 && sendBuffer[..numBytes] == SpawnFrame(host, bitsOf(p.x), bitsOf(p.y), bitsOf(p.z))
      ensures sendBuffer[numBytes..] == old(sendBuffer[numBytes..])
    {
      var p := bot.players[bot.botID].pos;
      WriteCoordinateFrame(PLAYER_SPAWN, bitsOf(p.x), bitsOf(p.y), bitsOf(p.z));
      return 18;
    }

    /** sendPlayerMoveMessage's frame: the bot's own position, as raw bits. */
    method SendPlayerMoveMessage(bitsOf: real -> word) returns (numBytes: nat)
      requires Valid() && bot != null
      modifies sendBuffer
      ensures var p := Self(bot.State()).pos;
        numBytes == 18 && sendBuffer[..numBytes] == MoveFrame(host, bitsOf(p.x), bitsOf(p.y), bitsOf(p.z))
      ensures sendBuffer[numBytes..] == old(sendBuffer[numBytes..])
    {
      var p := bot.players[bot.botID].pos;
      WriteCoordinateFrame(PLAYER_MOVE, bitsOf(p.x), bitsOf(p.y), bitsOf(p.z));
      return 18;
    }

    /** sendPlayerSelfAnnihilateMessage's frame: the header alone. */
    method SendPlayerSelfAnnihilateMessage() returns (numBytes: nat)
      requires Valid()
      modifies sendBuffer
      ensures numBytes == 6 && sendBuffer[..numBytes] == SelfAnnihilateFrame(host)
      ensures sendBuffer[numBytes..] == old(sendBuffer[numBytes..])
    {
      PutHeader(6, PLAYER_SELF_ANNIHILATE);
      return 6;
    }

    /**
     * The write half of one run-loop iteration: the bot, if there is one,
     * decides through its subclass's performAction, and the action selects
     * the frame to build (none for STANDBY). `numBytes` is the length of
     * the frame left at the front of the send buffer.
     */
    method Act(now: int, rDir: nat, rx: nat, ry: nat, rz: nat, bitsOf: real -> word)
      returns (action: Action, numBytes: nat)
      requires Valid()
      modifies sendBuffer, if bot != null then {bot, bot.players} else {}
      ensures Valid() && bot == old(bot) && recvBuffer[..] == old(recvBuffer[..])
      ensures bot == null ==> action == Standby && numBytes == 0
      ensures bot != null ==>
        DumbBot.Outcome(action, bot.State()) == Decision(bot.strategy, old(bot.State()), now, rDir, rx, ry, rz)
      ensures bot != null ==> numBytes <= BUFFER_SIZE && sendBuffer[..numBytes] == Outgoing(host, action, Self(bot.State()).pos, bitsOf)
      ensures numBytes <= BUFFER_SIZE && sendBuffer[numBytes..] == old(sendBuffer[numBytes..])
    {
      action := Standby;
      if bot != null {
        if bot.strategy == Dumb {
          action := DumbBot.PerformAction(bot, now, rDir, rx, ry, rz);
        } else {
          action := PunisherBot.PerformAction(bot, now, rDir, rx, ry, rz);
        }
      }
      match action
      case Move =>
        numBytes := SendPlayerMoveMessage(bitsOf);
      case Explode =>
        numBytes := SendPlayerSelfAnnihilateMessage();
      case Spawn =>
        numBytes := SendPlayerSpawnMessage(bitsOf);
      case Standby =>
        numBytes := 0;
    }
  }
}
