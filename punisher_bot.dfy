/**
 * PunisherBot::performAction (PunisherBot.cpp): the DumbBot decision with a
 * grudge. While scanning for targets the bot forgets its killer once that
 * player's slot is dead; an explosion also forgets it; and when it moves
 * with a killer still remembered, it steps toward the killer along the axis
 * of the largest gap instead of in a random direction.
 */
module PunisherBot {
  import opened Arena
  import opened DumbBot

  /** The gap between two positions on one axis. */
  function AxisGap(p: Position, q: Position, axis: int): real
    requires 0 <= axis < 3
  {
    Abs(Coord(p, axis) - Coord(q, axis))
  }

  /** The chase direction: the axis with the largest absolute difference
      (ties go to x, then y), positive when the bot is below the target on
      that axis and negative otherwise. */
  function ChaseDirection(me: Position, target: Position): (dir: int)
    ensures 0 <= dir < 6
  {
    var xDiff, yDiff, zDiff := Abs(me.x - target.x), Abs(me.y - target.y), Abs(me.z - target.z);
    var largest := if xDiff > yDiff then xDiff else yDiff;
    var largest' := if largest > zDiff then largest else zDiff;
    if largest' == xDiff then (if me.x < target.x then 0 else 1)
    else if largest' == yDiff then (if me.y < target.y then 2 else 3)
    else (if me.z < target.z then 4 else 5)
  }

  /** The chosen axis has the largest gap, every earlier axis a strictly
      smaller one, and the sign of the step faces the target. */
  lemma ChaseDirectionMeaning(me: Position, target: Position)
    ensures var dir := ChaseDirection(me, target);
      && (forall b :: 0 <= b < 3 ==> AxisGap(me, target, b) <= AxisGap(me, target, dir / 2))
      && (forall b :: 0 <= b < dir / 2 ==> AxisGap(me, target, b) < AxisGap(me, target, dir / 2))
      && (dir % 2 == 0 <==> Coord(me, dir / 2) < Coord(target, dir / 2))
  {
  }

  /** With both in [0,1]^3 and a gap of at least BOT_STEP on the chosen
      axis, one chase step shrinks that gap by exactly BOT_STEP. */
  lemma ChaseClosesGap(me: Position, target: Position)
    requires InUnitCube(me) && InUnitCube(target)
    requires AxisGap(me, target, ChaseDirection(me, target) / 2) >= BOT_STEP
    ensures var dir := ChaseDirection(me, target);
      AxisGap(MoveAlong(me, dir), target, dir / 2) == AxisGap(me, target, dir / 2) - BOT_STEP
  {
    var dir := ChaseDirection(me, target);
    ChaseDirectionMeaning(me, target);
    MoveChangesOneAxis(me, dir);
  }

  /** An example: from (0.2, 0.5, 0.9) toward (0, 0, 0) the z gap is
      largest, so the bot steps -z to 0.8. */
  lemma ChaseExample()
    ensures ChaseDirection(Position(0.2, 0.5, 0.9), Position(0.0, 0.0, 0.0)) == 5
    ensures MoveAlong(Position(0.2, 0.5, 0.9), 5) == Position(0.2, 0.5, 0.8)
  {
  }

  /** The killer as it stands after a full scan: forgotten when its slot is dead. */
  function ScannedKiller(s: BotState): int
    requires WellFormed(s)
  {
    if s.killerID != -1 && !s.players[s.killerID].isAlive then -1 else s.killerID
  }

  /** What one call of PunisherBot::performAction does. */
  function Decide(s: BotState, now: int, rDir: nat, rx: nat, ry: nat, rz: nat): Outcome
    requires WellFormed(s)
  {
    if !Self(s).isCreated || !CoolDownDone(s.lastActionTime, now) then Outcome(Standby, s)
    else if !Self(s).isAlive then Outcome(Spawn, Spawned(s, rx, ry, rz, now))
    else if HasTarget(s) then Outcome(Explode, Exploded(s, now).(killerID := -1))
    else
      var k := ScannedKiller(s);
      var dir := if k == -1 then rDir % 6 else ChaseDirection(Self(s).pos, s.players[k].pos);
      Outcome(Move, SelfMoved(s, dir).(killerID := k, lastActionTime := now))
  }

  /** The punisher takes the same action as the dumb bot in every state.
      Standby and Spawn leave identical states; an explosion differs only in
      forgetting the killer; a move with no live killer to chase is the dumb
      bot's random move. */
  lemma SameActionAsDumb(s: BotState, now: int, rDir: nat, rx: nat, ry: nat, rz: nat)
    requires WellFormed(s)
    ensures var p, d := Decide(s, now, rDir, rx, ry, rz), DumbBot.Decide(s, now, rDir, rx, ry, rz);
      && p.action == d.action
      && (p.action == Standby || p.action == Spawn ==> p.state == d.state)
      && (p.action == Explode ==> p.state == d.state.(killerID := -1))
      && (p.action == Move && ScannedKiller(s) == -1 ==> p.state == d.state.(killerID := -1))
  {
  }

  /** After a decision the remembered killer is either gone or a slot that
      was alive and already remembered; an explosion always forgets it. */
  lemma KillerAfterDecide(s: BotState, now: int, rDir: nat, rx: nat, ry: nat, rz: nat)
    requires WellFormed(s)
    ensures var o := Decide(s, now, rDir, rx, ry, rz);
      && WellFormed(o.state)
      && (o.state.killerID == -1 || (o.state.killerID == s.killerID && s.players[s.killerID].isAlive)
          || o.action == Standby || o.action == Spawn)
      && (o.action == Standby || o.action == Spawn ==> o.state.killerID == s.killerID)
      && (o.action == Explode ==> o.state.killerID == -1)
  {
  }

  /** With a live killer remembered, a move steps along ChaseDirection. */
  lemma MoveChasesKiller(s: BotState, now: int, rDir: nat, rx: nat, ry: nat, rz: nat)
    requires WellFormed(s) && s.killerID != -1 && s.players[s.killerID].isAlive
    requires Decide(s, now, rDir, rx, ry, rz).action == Move
    ensures var o := Decide(s, now, rDir, rx, ry, rz);
      && o.state.killerID == s.killerID
      && Self(o.state).pos == MoveAlong(Self(s).pos, ChaseDirection(Self(s).pos, s.players[s.killerID].pos))
  {
  }

  /** A move, chasing or random, keeps a bot inside [0,1]^3 inside it. */
  lemma MoveStaysInside(s: BotState, now: int, rDir: nat, rx: nat, ry: nat, rz: nat)
    requires WellFormed(s) && InUnitCube(Self(s).pos)
    requires Decide(s, now, rDir, rx, ry, rz).action == Move
    ensures InUnitCube(Self(Decide(s, now, rDir, rx, ry, rz).state).pos)
  {
    var k := ScannedKiller(s);
    var dir := if k == -1 then rDir % 6 else ChaseDirection(Self(s).pos, s.players[k].pos);
    MoveStaysInCube(Self(s).pos, dir);
  }

  /** Only the bot's own slot, the killer and the clock change. */
  lemma DecideFrame(s: BotState, now: int, rDir: nat, rx: nat, ry: nat, rz: nat)
    requires WellFormed(s)
    ensures var o := Decide(s, now, rDir, rx, ry, rz);
      && WellFormed(o.state)
      && SameExcept(o.state.players, s.players, s.botID)
      && o.state.botID == s.botID
      && Self(o.state).isCreated == Self(s).isCreated
      && Self(o.state).score == Self(s).score
      && o.state.lastActionTime == (if o.action == Standby then s.lastActionTime else now)
  {
  }

  method PerformAction(bot: Bot, now: int, rDir: nat, rx: nat, ry: nat, rz: nat) returns (action: Action)
    requires bot.Valid()
    modifies bot.players, bot`lastActionTime, bot`killerID
    ensures bot.Valid()
    ensures Outcome(action, bot.State()) == Decide(old(bot.State()), now, rDir, rx, ry, rz)
  {
    if !bot.players[bot.botID].isCreated {
      return Standby;
    }
    if !CoolDownDone(bot.lastActionTime, now) {
      return Standby;
    }
    if !bot.players[bot.botID].isAlive {
      SpawnSelf(bot, rx, ry, rz, now);
      return Spawn;
    }
    ghost var s := bot.State();
    for i := 0 to bot.numPlayers
      invariant bot.Valid()
      invariant bot.players[..] == s.players && bot.lastActionTime == s.lastActionTime
      invariant forall j :: 0 <= j < i ==> !IsTarget(s, j)
      invariant bot.killerID == (if s.killerID != -1 && s.killerID < i && !s.players[s.killerID].isAlive then -1 else s.killerID)
    {
      if i == bot.killerID && !bot.players[i].isAlive {
        bot.killerID := -1;
      }
      if bot.players[i].isAlive && i != bot.botID
        && DistanceSquared(bot.players[bot.botID].pos, bot.players[i].pos) <= EXPLOSION_RADIUS * EXPLOSION_RADIUS
      {
        assert IsTarget(s, i);
        bot.players[bot.botID] := bot.players[bot.botID].(isAlive := false);
        bot.lastActionTime := now;
        bot.killerID := -1;
        return Explode;
      }
    }
    var dir;
    if bot.killerID == -1 {
      dir := rDir % 6;
    } else {
      dir := ChaseDirection(bot.players[bot.botID].pos, bot.players[bot.killerID].pos);
    }
    MoveSelf(bot, dir);
    bot.lastActionTime := now;
    return Move;
  }
}
