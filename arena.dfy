/**
 * The bot's belief about the arena (Bot.h, Bot.cpp): a fixed array of player
 * slots, the bot's own id, the id of the player that last killed it, and the
 * time of its last action.
 *
 * Positions are reals (the code's floats without rounding), distances are
 * compared squared (no sqrt), and the clock is an explicit integer `now`
 * in clock ticks instead of a call to clock().
 */
module Arena {

  const EXPLOSION_RADIUS: real := 0.4
  const BOT_STEP: real := 0.1
  /** The cooldown between two actions, in seconds. */
  const ACTION_COOLDOWN: int := 1
  /** Clock ticks per second (the POSIX value of CLOCKS_PER_SEC). */
  const CLOCKS_PER_SEC: int := 1_000_000

  /** The four action codes performAction returns. */
  datatype Action = Move | Explode | Spawn | Standby

  function ActionCode(a: Action): int
  {
    match a
    case Move => 12
    case Explode => 13
    case Spawn => 14
    case Standby => 15
  }

  lemma ActionCodesDistinct(a: Action, b: Action)
    ensures ActionCode(a) == ActionCode(b) <==> a == b
  {
  }

  /** The two subclasses of Bot: DumbBot and PunisherBot. */
  datatype Strategy = Dumb | Punisher

  datatype Position = Position(x: real, y: real, z: real)

  /** One arena slot: the code's Player struct. */
  datatype Player = Player(isCreated: bool, pos: Position, isAlive: bool, score: int)

  /** The value of a Bot's fields at one moment; `players` is the slot array. */
  datatype BotState = BotState(botID: int, killerID: int, players: seq<Player>, lastActionTime: int)

  /** The bot's own slot and the tracked killer (when there is one) lie in the array. */
  predicate WellFormed(s: BotState)
  {
    && 0 <= s.botID < |s.players|
    && (s.killerID == -1 || 0 <= s.killerID < |s.players|)
  }

  function Self(s: BotState): Player
    requires WellFormed(s)
  {
    s.players[s.botID]
  }

  /** What the constructor establishes. Positions of every slot, and scores
      of the other slots, are left uninitialised by the code; no value is
      required of them here. */
  ghost predicate IsInitial(s: BotState, numPlayers: int, id: int)
  {
    && |s.players| == numPlayers
    && s.botID == id
    && s.killerID == -1
    && s.lastActionTime == -1
    && 0 <= id < numPlayers
    && (forall i :: 0 <= i < numPlayers ==> s.players[i].isCreated == (i == id) && !s.players[i].isAlive)
    && s.players[id].score == 0
  }

  /** coolDownDone: true before any action, otherwise once ACTION_COOLDOWN
      seconds of clock ticks have passed since the last one. */
  function CoolDownDone(lastActionTime: int, now: int): (r: bool)
    ensures r <==> lastActionTime < 0 || now >= lastActionTime + ACTION_COOLDOWN * CLOCKS_PER_SEC
  {
    lastActionTime < 0 || (now - lastActionTime) as real / CLOCKS_PER_SEC as real >= ACTION_COOLDOWN as real
  }

  /** Right after an action at time t, the cooldown is not done for a full
      second of ticks, and it is done from then on. */
  lemma CoolDownAfterAction(t: int, now: int)
    requires t >= 0
    ensures !CoolDownDone(t, t)
    ensures t <= now < t + CLOCKS_PER_SEC ==> !CoolDownDone(t, now)
    ensures now >= t + CLOCKS_PER_SEC ==> CoolDownDone(t, now)
  {
  }

  function Abs(r: real): (a: real)
    ensures a >= 0.0 && (a == r || a == -r)
  {
    if r < 0.0 then -r else r
  }

  /** getDistance squared: the code takes the square root of this sum; the
      model compares the sum with EXPLOSION_RADIUS squared instead. */
  function DistanceSquared(p: Position, q: Position): (d: real)
    ensures d >= 0.0
  {
    var dx, dy, dz := Abs(p.x - q.x), Abs(p.y - q.y), Abs(p.z - q.z);
    dx * dx + dy * dy + dz * dz
  }

  lemma DistanceSymmetric(p: Position, q: Position)
    ensures DistanceSquared(p, q) == DistanceSquared(q, p)
  {
  }

  lemma DistanceToSelfIsZero(p: Position)
    ensures DistanceSquared(p, p) == 0.0
  {
  }

  // The event updates, on values.

  /** playerSpawnUpdate */
  function SpawnUpdate(s: BotState, id: int, p: Position): (t: BotState)
    requires 0 <= id < |s.players|
  {
    s.(players := s.players[id := s.players[id].(isCreated := true, isAlive := true, pos := p)])
  }

  /** playerLocationUpdat */
  function LocationUpdate(s: BotState, id: int, p: Position): (t: BotState)
    requires 0 <= id < |s.players|
  {
    s.(players := s.players[id := s.players[id].(isAlive := true, pos := p)])
  }

  /** playerKilledUpdate: the slot dies and, whoever it is, the action clock restarts. */
  function KilledUpdate(s: BotState, id: int, now: int): (t: BotState)
    requires 0 <= id < |s.players|
  {
    s.(players := s.players[id := s.players[id].(isAlive := false)], lastActionTime := now)
  }

  /** setKiller */
  function KillerSet(s: BotState, id: int): (t: BotState)
  {
    s.(killerID := id)
  }

  /** incrementScore: only the bot's own slot scores. */
  function ScoreIncremented(s: BotState, n: int): (t: BotState)
    requires WellFormed(s)
  {
    s.(players := s.players[s.botID := Self(s).(score := Self(s).score + n)])
  }

  /** Two slot arrays agree everywhere except possibly at `id`. */
  predicate SameExcept(a: seq<Player>, b: seq<Player>, id: int)
  {
    |a| == |b| && forall i :: 0 <= i < |a| && i != id ==> a[i] == b[i]
  }

  lemma SpawnUpdateEffect(s: BotState, id: int, p: Position)
    requires WellFormed(s) && 0 <= id < |s.players|
    ensures var t := SpawnUpdate(s, id, p);
      && WellFormed(t)
      && t.players[id] == Player(true, p, true, s.players[id].score)
      && SameExcept(t.players, s.players, id)
      && t.botID == s.botID && t.killerID == s.killerID && t.lastActionTime == s.lastActionTime
  {
  }

  lemma LocationUpdateEffect(s: BotState, id: int, p: Position)
    requires WellFormed(s) && 0 <= id < |s.players|
    ensures var t := LocationUpdate(s, id, p);
      && WellFormed(t)
      && t.players[id] == Player(s.players[id].isCreated, p, true, s.players[id].score)
      && SameExcept(t.players, s.players, id)
      && t.botID == s.botID && t.killerID == s.killerID && t.lastActionTime == s.lastActionTime
  {
  }

  lemma KilledUpdateEffect(s: BotState, id: int, now: int)
    requires WellFormed(s) && 0 <= id < |s.players|
    ensures var t := KilledUpdate(s, id, now);
      && WellFormed(t)
      && t.players[id] == s.players[id].(isAlive := false)
      && SameExcept(t.players, s.players, id)
      && t.botID == s.botID && t.killerID == s.killerID && t.lastActionTime == now
  {
  }

  lemma ScoreIncrementedEffect(s: BotState, n: int)
    requires WellFormed(s)
    ensures var t := ScoreIncremented(s, n);
      && WellFormed(t)
      && Self(t) == Self(s).(score := Self(s).score + n)
      && SameExcept(t.players, s.players, s.botID)
      && t.botID == s.botID && t.killerID == s.killerID && t.lastActionTime == s.lastActionTime
  {
  }

  lemma KillerSetEffect(s: BotState, id: int)
    requires WellFormed(s) && (id == -1 || 0 <= id < |s.players|)
    ensures var t := KillerSet(s, id);
      WellFormed(t) && t.killerID == id && t.players == s.players
      && t.botID == s.botID && t.lastActionTime == s.lastActionTime
  {
  }

  /** A Bot object: the fields of the code's Bot class. The id, the array and
      its size never change after construction, so they are constants here;
      the strategy records which subclass the factory built. */
  class Bot {
    const strategy: Strategy
    const botID: int
    const numPlayers: int
    const players: array<Player>
    var killerID: int
    var lastActionTime: int

    ghost predicate Valid()
      reads this
    {
      && players.Length == numPlayers
      && 0 <= botID < numPlayers
      && (killerID == -1 || 0 <= killerID < numPlayers)
    }

    ghost function State(): (s: BotState)
      reads this, players
      ensures Valid() ==> WellFormed(s)
    {
      BotState(botID, killerID, players[..], lastActionTime)
    }

    /** Bot(numPlayers, ID): every slot not created and not alive, then the
        bot's own slot created with score 0; no action taken, no killer. */
    constructor (strategy: Strategy, num: int, id: int)
      requires 0 <= id < num
      ensures Valid() && fresh(players)
      ensures this.strategy == strategy
      ensures IsInitial(State(), num, id)
    {
      var a := new Player[num];
      for i := 0 to num
        invariant forall j :: 0 <= j < i ==> !a[j].isCreated && !a[j].isAlive
      {
        a[i] := a[i].(isCreated := false, isAlive := false);
      }
      a[id] := a[id].(isCreated := true, score := 0);
      this.strategy := strategy;
      botID := id;
      numPlayers := num;
      players := a;
      lastActionTime := -1;
      killerID := -1;
    }

    method PlayerSpawnUpdate(id: int, x: real, y: real, z: real)
      requires Valid() && 0 <= id < numPlayers
      modifies players
      ensures Valid()
      ensures State() == SpawnUpdate(old(State()), id, Position(x, y, z))
    {
      players[id] := players[id].(isCreated := true, isAlive := true, pos := Position(x, y, z));
    }

    method PlayerKilledUpdate(id: int, now: int)
      requires Valid() && 0 <= id < numPlayers
      modifies players, this`lastActionTime
      ensures Valid()
      ensures State() == KilledUpdate(old(State()), id, now)
    {
      players[id] := players[id].(isAlive := false);
      lastActionTime := now;
    }

    method PlayerLocationUpdate(id: int, x: real, y: real, z: real)
      requires Valid() && 0 <= id < numPlayers
      modifies players
      ensures Valid()
      ensures State() == LocationUpdate(old(State()), id, Position(x, y, z))
    {
      players[id] := players[id].(isAlive := true, pos := Position(x, y, z));
    }

    method SetKiller(id: int)
      requires Valid() && (id == -1 || 0 <= id < numPlayers)
      modifies this`killerID
      ensures Valid()
      ensures State() == KillerSet(old(State()), id)
    {
      killerID := id;
    }

    method IncrementScore(n: int)
      requires Valid()
      modifies players
      ensures Valid()
      ensures State() == ScoreIncremented(old(State()), n)
    {
      players[botID] := players[botID].(score := players[botID].score + n);
    }
  }
}
