/**
 * What processServerMessage does with a decoded frame (PlayerClient.cpp),
 * stated on values: before a JoinResponse there is no bot and every other
 * message only parses; a JoinResponse makes a new bot; the other three
 * messages apply Bot's update methods in the order the code calls them.
 *
 * Player ids are never checked by the code; an id outside the slot array
 * makes it index out of bounds. The model refuses such a frame as a whole
 * (return code -1, no update) whenever the code would have indexed with it.
 */
module Session {
  import opened Wire
  import opened Codec
  import opened Arena
  import opened BotFactory
  import DumbBot
  import PunisherBot

  datatype Option<T> = None | Some(value: T)

  /** The outcome of one processServerMessage call besides its return code. */
  datatype Effect =
    | Fail                                   // -1, nothing changes
    | Quiet                                  // 0, nothing changes
    | NewBot(strategy: Strategy, id: int)    // 0, a freshly constructed bot replaces the pointer
    | Updated(state: BotState)               // 0, the existing bot is now in this state

  /** The return code of processServerMessage. */
  function ReturnCode(e: Effect): (r: int)
    ensures r == -1 <==> e.Fail?
    ensures r == 0 <==> !e.Fail?
  {
    if e.Fail? then -1 else 0
  }

  predicate InSlots(s: BotState, id: int)
  {
    0 <= id < |s.players|
  }

  predicate RecordsInSlots(s: BotState, rs: seq<Record>)
  {
    forall k :: 0 <= k < |rs| ==> InSlots(s, rs[k].id)
  }

  predicate VictimsInSlots(s: BotState, vs: seq<int>)
  {
    forall k :: 0 <= k < |vs| ==> InSlots(s, vs[k])
  }

  /** The memcpy of the raw bits into a float, for the three coordinates. */
  function PositionOf(x: word, y: word, z: word, floatOf: word -> real): Position
  {
    Position(floatOf(x), floatOf(y), floatOf(z))
  }

  /** The MapUpdate loop: one playerLocationUpdat per record, in order. */
  function ApplyLocations(s: BotState, rs: seq<Record>, floatOf: word -> real): (t: BotState)
    requires WellFormed(s) && RecordsInSlots(s, rs)
    ensures WellFormed(t) && |t.players| == |s.players|
    ensures t.botID == s.botID && t.killerID == s.killerID && t.lastActionTime == s.lastActionTime
    decreases |rs|
  {
    if rs == [] then s
    else
      var r := rs[|rs| - 1];
      LocationUpdate(ApplyLocations(s, rs[..|rs| - 1], floatOf), r.id, PositionOf(r.x, r.y, r.z, floatOf))
  }

  /** The victim loop of AnnihilationResults: each victim dies, and when it
      is the bot itself the bot remembers the killer. */
  function ApplyVictims(s: BotState, killer: int, vs: seq<int>, now: int): (t: BotState)
    requires WellFormed(s) && InSlots(s, killer) && VictimsInSlots(s, vs)
    ensures WellFormed(t) && |t.players| == |s.players| && t.botID == s.botID
    decreases |vs|
  {
    if vs == [] then s
    else VictimUpdate(ApplyVictims(s, killer, vs[..|vs| - 1], now), killer, vs[|vs| - 1], now)
  }

  /** One victim: it dies and, when it is the bot itself, the bot remembers the killer. */
  function VictimUpdate(s: BotState, killer: int, v: int, now: int): (t: BotState)
    requires WellFormed(s) && InSlots(s, killer) && InSlots(s, v)
    ensures WellFormed(t) && |t.players| == |s.players| && t.botID == s.botID
  {
    var t0 := KilledUpdate(s, v, now);
    if v == t0.botID then KillerSet(t0, killer) else t0
  }

  /** One more record of the loop: the prefix of length i + 1 is the prefix
      of length i followed by record i. */
  lemma ApplyLocationsStep(s: BotState, rs: seq<Record>, floatOf: word -> real, i: nat)
    requires WellFormed(s) && RecordsInSlots(s, rs) && i < |rs|
    ensures RecordsInSlots(s, rs[..i]) && RecordsInSlots(s, rs[..i + 1])
    ensures ApplyLocations(s, rs[..i + 1], floatOf)
         == LocationUpdate(ApplyLocations(s, rs[..i], floatOf), rs[i].id, PositionOf(rs[i].x, rs[i].y, rs[i].z, floatOf))
  {
    assert rs[..i + 1][..i] == rs[..i];
  }

  /** One more victim of the loop. */
  lemma ApplyVictimsStep(s: BotState, killer: int, vs: seq<int>, now: int, i: nat)
    requires WellFormed(s) && InSlots(s, killer) && VictimsInSlots(s, vs) && i < |vs|
    ensures VictimsInSlots(s, vs[..i]) && VictimsInSlots(s, vs[..i + 1])
    ensures ApplyVictims(s, killer, vs[..i + 1], now) == VictimUpdate(ApplyVictims(s, killer, vs[..i], now), killer, vs[i], now)
  {
    assert vs[..i + 1][..i] == vs[..i];
  }

  /** AnnihilationResults: the killer dies first, then it scores if it is the
      bot itself, then the victims are processed. */
  function Annihilation(s: BotState, killer: int, numKills: int, vs: seq<int>, now: int): (t: BotState)
    requires WellFormed(s) && InSlots(s, killer) && VictimsInSlots(s, vs)
    ensures WellFormed(t) && |t.players| == |s.players| && t.botID == s.botID
  {
    var t0 := KilledUpdate(s, killer, now);
    var t1 := if killer == t0.botID then ScoreIncremented(t0, numKills) else t0;
    ApplyVictims(t1, killer, vs, now)
  }

  /** The state changes a decoded message makes. */
  function Handle(bot: Option<BotState>, botAIType: int, m: ServerMessage, now: int, floatOf: word -> real): Effect
    requires bot.Some? ==> WellFormed(bot.value)
  {
    match m
    case JoinResponse(id) =>
      if 0 <= id < PLAYER_LIMIT then NewBot(StrategyFor(botAIType), id) else Fail
    case MapUpdate(rs) =>
      if bot.None? then Quiet
      else if !RecordsInSlots(bot.value, rs) then Fail
      else Updated(ApplyLocations(bot.value, rs, floatOf))
    case SpawnWithId(id, x, y, z) =>
      if bot.None? then Quiet
      else if !InSlots(bot.value, id) then Fail
      else Updated(SpawnUpdate(bot.value, id, PositionOf(x, y, z, floatOf)))
    case AnnihilationResults(killer, numKills, vs) =>
      if bot.None? then Quiet
      else if !InSlots(bot.value, killer) || !VictimsInSlots(bot.value, vs) then Fail
      else Updated(Annihilation(bot.value, killer, numKills, vs, now))
  }

  /** The receive buffer after a recv that delivered `data` into it: the
      bytes past the delivery keep their earlier values. */
  function Received(stale: seq<byte>, data: seq<byte>): (r: seq<byte>)
    requires |data| <= |stale|
    ensures |r| == |stale| && r[..|data|] == data && r[|data|..] == stale[|data|..]
  {
    data + stale[|data|..]
  }

  /** The effect of a received buffer holding `bytes` bytes: a refused
      frame fails, an accepted one is handled. */
  function DecodeEffect(h: HostOrder, bot: Option<BotState>, botAIType: int, buf: seq<byte>, bytes: int,
                        now: int, floatOf: word -> real): Effect
    requires bot.Some? ==> WellFormed(bot.value)
    requires |buf| == BUFFER_SIZE
  {
    match Decode(h, buf, bytes)
    case Err(_) => Fail
    case Ok(m) => Handle(bot, botAIType, m, now, floatOf)
  }

  /**
   * One processServerMessage call: `failed` is a recv error, `data` what a
   * successful recv delivered (empty when the connection was closed),
   * `stale` the receive buffer beforehand.
   */
  function Process(h: HostOrder, bot: Option<BotState>, botAIType: int, failed: bool,
                   data: seq<byte>, stale: seq<byte>, now: int, floatOf: word -> real): Effect
    requires bot.Some? ==> WellFormed(bot.value)
    requires |stale| == BUFFER_SIZE && |data| <= BUFFER_SIZE
  {
    if failed then Fail
    else if data == [] then Quiet
    else DecodeEffect(h, bot, botAIType, Received(stale, data), |data|, now, floatOf)
  }

  // Properties of the message handling.

  /** A frame that is refused by the decoder, or a recv error, fails and
      changes nothing; a short frame is one such. */
  lemma RefusedFrameFails(h: HostOrder, bot: Option<BotState>, botAIType: int, data: seq<byte>,
                          stale: seq<byte>, now: int, floatOf: word -> real)
    requires bot.Some? ==> WellFormed(bot.value)
    requires |stale| == BUFFER_SIZE && 0 < |data| <= BUFFER_SIZE
    ensures Process(h, bot, botAIType, true, data, stale, now, floatOf) == Fail
    ensures Decode(h, Received(stale, data), |data|).Err? ==> Process(h, bot, botAIType, false, data, stale, now, floatOf) == Fail
    ensures |data| < FrameLength(h, Received(stale, data)) ==> Process(h, bot, botAIType, false, data, stale, now, floatOf) == Fail
  {
    DecodeRejects(h, Received(stale, data), |data|);
  }

  /** Before a JoinResponse has created the bot, the other messages change
      nothing and succeed; a JoinResponse creates a bot of the selected
      strategy exactly when its id names a slot. */
  lemma NoBotYet(botAIType: int, m: ServerMessage, now: int, floatOf: word -> real)
    ensures !m.JoinResponse? ==> Handle(None, botAIType, m, now, floatOf) == Quiet
    ensures m.JoinResponse? ==>
      Handle(None, botAIType, m, now, floatOf) ==
        (if 0 <= m.id < PLAYER_LIMIT then NewBot(StrategyFor(botAIType), m.id) else Fail)
  {
  }

  /** A JoinResponse replaces any existing bot, whatever its state. */
  lemma JoinReplacesBot(s: BotState, botAIType: int, id: int, now: int, floatOf: word -> real)
    requires WellFormed(s) && 0 <= id < PLAYER_LIMIT
    ensures Handle(Some(s), botAIType, JoinResponse(id), now, floatOf) == NewBot(StrategyFor(botAIType), id)
  {
  }

  /** The index of the last record for slot j, or -1 when there is none. */
  function LastRecordFor(rs: seq<Record>, j: int): (k: int)
    ensures -1 <= k < |rs|
    ensures k >= 0 ==> rs[k].id == j && forall k' :: k < k' < |rs| ==> rs[k'].id != j
    ensures k == -1 ==> forall k' :: 0 <= k' < |rs| ==> rs[k'].id != j
    decreases |rs|
  {
    if rs == [] then -1
    else if rs[|rs| - 1].id == j then |rs| - 1
    else LastRecordFor(rs[..|rs| - 1], j)
  }

  /** Records are applied in order, so the last one for a slot wins: a
      slot with a record is alive at that record's position, a slot with
      none is untouched, and nothing becomes created. */
  lemma {:induction false} MapUpdateLastWins(s: BotState, rs: seq<Record>, floatOf: word -> real, j: int)
    requires WellFormed(s) && RecordsInSlots(s, rs) && InSlots(s, j)
    ensures var t, k := ApplyLocations(s, rs, floatOf), LastRecordFor(rs, j);
      t.players[j] ==
        if k == -1 then s.players[j]
        else s.players[j].(isAlive := true, pos := PositionOf(rs[k].x, rs[k].y, rs[k].z, floatOf))
    decreases |rs|
  {
    if rs != [] {
      MapUpdateLastWins(s, rs[..|rs| - 1], floatOf, j);
    }
  }

  /** A count of zero or less applies no update. */
  lemma EmptyMapUpdateChangesNothing(s: BotState, floatOf: word -> real)
    requires WellFormed(s)
    ensures ApplyLocations(s, [], floatOf) == s
  {
  }

  /** The victim loop kills exactly the listed slots, leaves every other
      field of every slot alone, remembers the killer exactly when the bot
      itself is a victim, and restarts the clock if there was any victim. */
  lemma {:induction false} VictimsEffect(s: BotState, killer: int, vs: seq<int>, now: int)
    requires WellFormed(s) && InSlots(s, killer) && VictimsInSlots(s, vs)
    ensures var t := ApplyVictims(s, killer, vs, now);
      && (forall j :: 0 <= j < |s.players| ==>
            t.players[j] == s.players[j].(isAlive := s.players[j].isAlive && j !in vs))
      && t.killerID == (if s.botID in vs then killer else s.killerID)
      && t.lastActionTime == (if vs == [] then s.lastActionTime else now)
    decreases |vs|
  {
    if vs != [] {
      var init := vs[..|vs| - 1];
      VictimsEffect(s, killer, init, now);
      assert vs == init + [vs[|vs| - 1]];
      forall j | 0 <= j < |s.players|
        ensures (j in vs) == (j in init || j == vs[|vs| - 1])
      {
      }
    }
  }

  /** AnnihilationResults in full: the killer and the victims are dead and
      every other slot keeps its liveness; positions and created flags do
      not change; only the bot's own score changes, by the kill count and
      only when the bot is the killer; the killer is remembered only when
      the bot is among the victims; the clock restarts in any case. */
  lemma AnnihilationEffect(s: BotState, killer: int, numKills: int, vs: seq<int>, now: int)
    requires WellFormed(s) && InSlots(s, killer) && VictimsInSlots(s, vs)
    ensures var t := Annihilation(s, killer, numKills, vs, now);
      && (forall j :: 0 <= j < |s.players| ==>
            && t.players[j].isAlive == (s.players[j].isAlive && j != killer && j !in vs)
            && t.players[j].isCreated == s.players[j].isCreated
            && t.players[j].pos == s.players[j].pos)
      && (forall j :: 0 <= j < |s.players| && j != s.botID ==> t.players[j].score == s.players[j].score)
      && Self(t).score == Self(s).score + (if killer == s.botID then numKills else 0)
      && t.killerID == (if s.botID in vs then killer else s.killerID)
      && t.lastActionTime == now
  {
    var t0 := KilledUpdate(s, killer, now);
    var t1 := if killer == t0.botID then ScoreIncremented(t0, numKills) else t0;
    KilledUpdateEffect(s, killer, now);
    ScoreIncrementedEffect(t0, numKills);
    VictimsEffect(t1, killer, vs, now);
  }

  /** With a kill count of zero or less no victim is read; only the killer
      dies and, when it is the bot, the score changes by that count. */
  lemma NoVictims(s: BotState, killer: int, numKills: int, now: int)
    requires WellFormed(s) && InSlots(s, killer)
    ensures Annihilation(s, killer, numKills, [], now)
         == var t0 := KilledUpdate(s, killer, now);
            if killer == s.botID then ScoreIncremented(t0, numKills) else t0
  {
  }

  /** A SpawnWithId for the bot's own slot brings it back to life at the
      announced position. */
  lemma SpawnOfSelf(s: BotState, x: word, y: word, z: word, now: int, botAIType: int, floatOf: word -> real)
    requires WellFormed(s)
    ensures var e := Handle(Some(s), botAIType, SpawnWithId(s.botID, x, y, z), now, floatOf);
      && e.Updated?
      && Self(e.state) == Self(s).(isCreated := true, isAlive := true, pos := PositionOf(x, y, z, floatOf))
  {
  }

  /** An id outside the slot array refuses the whole frame. */
  lemma OutOfRangeIdFails(s: BotState, botAIType: int, m: ServerMessage, now: int, floatOf: word -> real)
    requires WellFormed(s)
    ensures m.SpawnWithId? && !InSlots(s, m.id) ==> Handle(Some(s), botAIType, m, now, floatOf) == Fail
    ensures m.MapUpdate? && (exists k :: 0 <= k < |m.records| && !InSlots(s, m.records[k].id))
            ==> Handle(Some(s), botAIType, m, now, floatOf) == Fail
    ensures m.AnnihilationResults? && !InSlots(s, m.killer) ==> Handle(Some(s), botAIType, m, now, floatOf) == Fail
  {
  }

  // The write half of the run loop.

  /** performAction of the subclass the factory built. */
  function Decision(st: Strategy, s: BotState, now: int, rDir: nat, rx: nat, ry: nat, rz: nat): DumbBot.Outcome
    requires WellFormed(s)
  {
    match st
    case Dumb => DumbBot.Decide(s, now, rDir, rx, ry, rz)
    case Punisher => PunisherBot.Decide(s, now, rDir, rx, ry, rz)
  }

  /** The frame the run loop sends for an action, carrying the bot's
      position as it is after the action; nothing for STANDBY. `bitsOf` is
      the memcpy of a float into its raw bits. */
  function Outgoing(h: HostOrder, a: Action, p: Position, bitsOf: real -> word): seq<byte>
  {
    match a
    case Move => MoveFrame(h, bitsOf(p.x), bitsOf(p.y), bitsOf(p.z))
    case Explode => SelfAnnihilateFrame(h)
    case Spawn => SpawnFrame(h, bitsOf(p.x), bitsOf(p.y), bitsOf(p.z))
    case Standby => []
  }

  /** STANDBY sends nothing, every other action a frame. */
  lemma OutgoingOnlyWhenActing(h: HostOrder, a: Action, p: Position, bitsOf: real -> word)
    ensures Outgoing(h, a, p, bitsOf) == [] <==> a == Standby
  {
  }

  /** MOVE sends a move frame, EXPLODE a self-annihilate frame, SPAWN a
      spawn frame. Read with the decoder's own field reads, each frame
      declares its own length and carries version 1 and its client code. */
  lemma OutgoingHeader(h: HostOrder, a: Action, p: Position, bitsOf: real -> word, tail: seq<byte>)
    requires a != Standby
    ensures var buf := Outgoing(h, a, p, bitsOf) + tail;
      && |Outgoing(h, a, p, bitsOf)| == (if a == Explode then 6 else 18)
      && FrameLength(h, buf) == |Outgoing(h, a, p, bitsOf)|
      && buf[4] == VERSION_NUM
      && buf[5] == (if a == Move then PLAYER_MOVE else if a == Spawn then PLAYER_SPAWN else PLAYER_SELF_ANNIHILATE)
  {
    var x, y, z := bitsOf(p.x), bitsOf(p.y), bitsOf(p.z);
    if a == Explode {
      SelfAnnihilateFrameReadsBack(h, tail);
    } else {
      MoveAndSpawnFramesReadBack(h, x, y, z, tail);
    }
  }

  /** The move and spawn frames carry the bits of the position they were
      built from, at offsets 6, 10 and 14. */
  lemma OutgoingPosition(h: HostOrder, a: Action, p: Position, bitsOf: real -> word, tail: seq<byte>)
    requires a == Move || a == Spawn
    ensures var buf := Outgoing(h, a, p, bitsOf) + tail;
      && 18 <= |buf|
      && ReadWord(h, buf, 6) == bitsOf(p.x)
      && ReadWord(h, buf, 10) == bitsOf(p.y)
      && ReadWord(h, buf, 14) == bitsOf(p.z)
  {
    MoveAndSpawnFramesReadBack(h, bitsOf(p.x), bitsOf(p.y), bitsOf(p.z), tail);
  }
}
