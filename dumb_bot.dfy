/**
 * DumbBot::performAction (DumbBot.cpp): one decision per call. Standby while
 * the bot's slot is not created or the cooldown runs; spawn at a random grid
 * point when dead; explode when any other live slot is within
 * EXPLOSION_RADIUS; otherwise take one BOT_STEP along a random one of six
 * axis directions, clamped to [0,1] on that axis.
 *
 * The values of rand() are parameters; the clock is `now`. The spawn, move
 * and cooldown pieces are shared with the PunisherBot module, whose code
 * repeats them.
 */
module DumbBot {
  import opened Arena

  /** The ten spawn coordinates (rand() % 10) / 10 can produce. */
  const SpawnGrid: set<real> := {0.0, 0.1, 0.2, 0.3, 0.4, 0.5, 0.6, 0.7, 0.8, 0.9}

  function SpawnCoordinate(r: nat): (c: real)
    ensures c in SpawnGrid
  {
    var k := r % 10;
    assert k in {0, 1, 2, 3, 4, 5, 6, 7, 8, 9};
    k as real / 10.0
  }

  function SpawnPosition(rx: nat, ry: nat, rz: nat): Position
  {
    Position(SpawnCoordinate(rx), SpawnCoordinate(ry), SpawnCoordinate(rz))
  }

  predicate InUnitCube(p: Position)
  {
    0.0 <= p.x <= 1.0 && 0.0 <= p.y <= 1.0 && 0.0 <= p.z <= 1.0
  }

  lemma SpawnPositionInCube(rx: nat, ry: nat, rz: nat)
    ensures InUnitCube(SpawnPosition(rx, ry, rz))
  {
  }

  /** The coordinate of `p` on axis 0 (x), 1 (y) or 2 (z). */
  function Coord(p: Position, axis: int): real
    requires 0 <= axis < 3
  {
    if axis == 0 then p.x else if axis == 1 then p.y else p.z
  }

  function Min(a: real, b: real): real { if a <= b then a else b }
  function Max(a: real, b: real): real { if a >= b then a else b }

  /** The six-way move switch: 0 +x, 1 -x, 2 +y, 3 -y, 4 +z, 5 -z; a step
      that would leave [0,1] stops at the bound instead. */
  function MoveAlong(p: Position, dir: int): Position
    requires 0 <= dir < 6
  {
    if dir == 0 then p.(x := if p.x + BOT_STEP > 1.0 then 1.0 else p.x + BOT_STEP)
    else if dir == 1 then p.(x := if p.x - BOT_STEP < 0.0 then 0.0 else p.x - BOT_STEP)
    else if dir == 2 then p.(y := if p.y + BOT_STEP > 1.0 then 1.0 else p.y + BOT_STEP)
    else if dir == 3 then p.(y := if p.y - BOT_STEP < 0.0 then 0.0 else p.y - BOT_STEP)
    else if dir == 4 then p.(z := if p.z + BOT_STEP > 1.0 then 1.0 else p.z + BOT_STEP)
    else p.(z := if p.z - BOT_STEP < 0.0 then 0.0 else p.z - BOT_STEP)
  }

  /** A move changes only the coordinate on axis dir / 2: an even direction
      raises it by BOT_STEP but not above 1, an odd one lowers it by
      BOT_STEP but not below 0. */
  lemma MoveChangesOneAxis(p: Position, dir: int)
    requires 0 <= dir < 6
    ensures forall a :: 0 <= a < 3 && a != dir / 2 ==> Coord(MoveAlong(p, dir), a) == Coord(p, a)
    ensures dir % 2 == 0 ==> Coord(MoveAlong(p, dir), dir / 2) == Min(Coord(p, dir / 2) + BOT_STEP, 1.0)
    ensures dir % 2 == 1 ==> Coord(MoveAlong(p, dir), dir / 2) == Max(Coord(p, dir / 2) - BOT_STEP, 0.0)
  {
  }

  lemma MoveStaysInCube(p: Position, dir: int)
    requires 0 <= dir < 6 && InUnitCube(p)
    ensures InUnitCube(MoveAlong(p, dir))
  {
  }

  /** Slot i is a target: alive, not the bot itself, within EXPLOSION_RADIUS
      (whether it is created is not looked at). */
  predicate IsTarget(s: BotState, i: int)
    requires WellFormed(s) && 0 <= i < |s.players|
  {
    && s.players[i].isAlive
    && i != s.botID
    && DistanceSquared(Self(s).pos, s.players[i].pos) <= EXPLOSION_RADIUS * EXPLOSION_RADIUS
  }

  predicate HasTarget(s: BotState)
    requires WellFormed(s)
  {
    exists i :: 0 <= i < |s.players| && IsTarget(s, i)
  }

  function WithSelf(s: BotState, me: Player): BotState
    requires WellFormed(s)
  {
    s.(players := s.players[s.botID := me])
  }

  /** The spawn branch: a grid position, alive, clock restarted. */
  function Spawned(s: BotState, rx: nat, ry: nat, rz: nat, now: int): BotState
    requires WellFormed(s)
  {
    WithSelf(s, Self(s).(pos := SpawnPosition(rx, ry, rz), isAlive := true)).(lastActionTime := now)
  }

  /** The explode branch: the bot marks itself dead, clock restarted. */
  function Exploded(s: BotState, now: int): BotState
    requires WellFormed(s)
  {
    WithSelf(s, Self(s).(isAlive := false)).(lastActionTime := now)
  }

  function SelfMoved(s: BotState, dir: int): BotState
    requires WellFormed(s) && 0 <= dir < 6
  {
    WithSelf(s, Self(s).(pos := MoveAlong(Self(s).pos, dir)))
  }

  datatype Outcome = Outcome(action: Action, state: BotState)

  /** What one call of DumbBot::performAction does. */
  function Decide(s: BotState, now: int, rDir: nat, rx: nat, ry: nat, rz: nat): Outcome
    requires WellFormed(s)
  {
    if !Self(s).isCreated || !CoolDownDone(s.lastActionTime, now) then Outcome(Standby, s)
    else if !Self(s).isAlive then Outcome(Spawn, Spawned(s, rx, ry, rz, now))
    else if HasTarget(s) then Outcome(Explode, Exploded(s, now))
    else Outcome(Move, SelfMoved(s, rDir % 6).(lastActionTime := now))
  }

  lemma DecideStandby(s: BotState, now: int, rDir: nat, rx: nat, ry: nat, rz: nat)
    requires WellFormed(s)
    ensures var o := Decide(s, now, rDir, rx, ry, rz);
      (o.action == Standby <==> !Self(s).isCreated || !CoolDownDone(s.lastActionTime, now))
      && (o.action == Standby ==> o.state == s)
  {
  }

  lemma DecideSpawn(s: BotState, now: int, rDir: nat, rx: nat, ry: nat, rz: nat)
    requires WellFormed(s) && Self(s).isCreated && CoolDownDone(s.lastActionTime, now) && !Self(s).isAlive
    ensures var o := Decide(s, now, rDir, rx, ry, rz);
      && o.action == Spawn
      && WellFormed(o.state)
      && Self(o.state).isAlive
      && InUnitCube(Self(o.state).pos)
      && Self(o.state).pos.x in SpawnGrid && Self(o.state).pos.y in SpawnGrid && Self(o.state).pos.z in SpawnGrid
  {
  }

  /** With the bot alive and ready, it explodes exactly when some other live
      slot is in range, and then it is dead. */
  lemma DecideExplode(s: BotState, now: int, rDir: nat, rx: nat, ry: nat, rz: nat)
    requires WellFormed(s) && Self(s).isCreated && CoolDownDone(s.lastActionTime, now) && Self(s).isAlive
    ensures var o := Decide(s, now, rDir, rx, ry, rz);
      && (o.action == Explode <==> exists i :: 0 <= i < |s.players| && IsTarget(s, i))
      && (o.action == Explode ==> WellFormed(o.state) && !Self(o.state).isAlive && Self(o.state).pos == Self(s).pos)
      && (o.action == Explode || o.action == Move)
  {
  }

  /** A Move changes one coordinate of the bot by a clamped step, and keeps
      a bot inside [0,1]^3 inside it. */
  lemma DecideMove(s: BotState, now: int, rDir: nat, rx: nat, ry: nat, rz: nat)
    requires WellFormed(s)
    requires Decide(s, now, rDir, rx, ry, rz).action == Move
    ensures var o := Decide(s, now, rDir, rx, ry, rz);
      && WellFormed(o.state)
      && Self(o.state).isAlive
      && Self(o.state).pos == MoveAlong(Self(s).pos, rDir % 6)
      && (InUnitCube(Self(s).pos) ==> InUnitCube(Self(o.state).pos))
  {
    if InUnitCube(Self(s).pos) {
      MoveStaysInCube(Self(s).pos, rDir % 6);
    }
  }

  /** Only the bot's own slot and the clock change; the clock is restarted
      by every action but Standby; the score and the killer stay as they were. */
  lemma DecideFrame(s: BotState, now: int, rDir: nat, rx: nat, ry: nat, rz: nat)
    requires WellFormed(s)
    ensures var o := Decide(s, now, rDir, rx, ry, rz);
      && WellFormed(o.state)
      && SameExcept(o.state.players, s.players, s.botID)
      && o.state.botID == s.botID
      && o.state.killerID == s.killerID
      && Self(o.state).isCreated == Self(s).isCreated
      && Self(o.state).score == Self(s).score
      && o.state.lastActionTime == (if o.action == Standby then s.lastActionTime else now)
  {
  }

  /** The move switch, on the bot's own slot. */
  method MoveSelf(bot: Bot, dir: int)
    requires bot.Valid() && 0 <= dir < 6
    modifies bot.players
    ensures bot.Valid()
    ensures bot.State() == SelfMoved(old(bot.State()), dir)
  {
    var me := bot.players[bot.botID];
    var p := me.pos;
    if dir == 0 {
      if p.x + BOT_STEP > 1.0 { p := p.(x := 1.0); } else { p := p.(x := p.x + BOT_STEP); }
    } else if dir == 1 {
      if p.x - BOT_STEP < 0.0 { p := p.(x := 0.0); } else { p := p.(x := p.x - BOT_STEP); }
    } else if dir == 2 {
      if p.y + BOT_STEP > 1.0 { p := p.(y := 1.0); } else { p := p.(y := p.y + BOT_STEP); }
    } else if dir == 3 {
      if p.y - BOT_STEP < 0.0 { p := p.(y := 0.0); } else { p := p.(y := p.y - BOT_STEP); }
    } else if dir == 4 {
      if p.z + BOT_STEP > 1.0 { p := p.(z := 1.0); } else { p := p.(z := p.z + BOT_STEP); }
    } else {
      if p.z - BOT_STEP < 0.0 { p := p.(z := 0.0); } else { p := p.(z := p.z - BOT_STEP); }
    }
    bot.players[bot.botID] := me.(pos := p);
  }

  /** The spawn branch, on the bot's own slot. */
  method SpawnSelf(bot: Bot, rx: nat, ry: nat, rz: nat, now: int)
    requires bot.Valid()
    modifies bot.players, bot`lastActionTime
    ensures bot.Valid()
    ensures bot.State() == Spawned(old(bot.State()), rx, ry, rz, now)
  {
    var me := bot.players[bot.botID];
    me := me.(pos := me.pos.(x := SpawnCoordinate(rx)));
    me := me.(pos := me.pos.(y := SpawnCoordinate(ry)));
    me := me.(pos := me.pos.(z := SpawnCoordinate(rz)));
    me := me.(isAlive := true);
    bot.players[bot.botID] := me;
    bot.lastActionTime := now;
  }

  method PerformAction(bot: Bot, now: int, rDir: nat, rx: nat, ry: nat, rz: nat) returns (action: Action)
    requires bot.Valid()
    modifies bot.players, bot`lastActionTime
    ensures bot.Valid()
    ensures Outcome(action, bot.State()) == Decide(old(bot.State()), now, rDir, rx, ry, rz)
  {
    if !bot.players[bot.botID].isCreated {
      return Standby;
    }
    if !CoolDownDone(bot.lastActionTime, now) {
      return Standby;
    }
    if !bot.players[bot.botID].isAlive {
      SpawnSelf(bot, rx, ry, rz, now);
      return Spawn;
    }
    ghost var s := bot.State();
    for i := 0 to bot.numPlayers
      invariant bot.State() == s
      invariant forall j :: 0 <= j < i ==> !IsTarget(s, j)
    {
      if bot.players[i].isAlive && i != bot.botID
        && DistanceSquared(bot.players[bot.botID].pos, bot.players[i].pos) <= EXPLOSION_RADIUS * EXPLOSION_RADIUS
      {
        assert IsTarget(s, i);
        bot.players[bot.botID] := bot.players[bot.botID].(isAlive := false);
        bot.lastActionTime := now;
        return Explode;
      }
    }
    MoveSelf(bot, rDir % 6);
    bot.lastActionTime := now;
    return Move;
  }
}
