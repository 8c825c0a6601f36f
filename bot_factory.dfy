/**
 * BotFactory::createBot (BotFactory.cpp): the selector PUNISHER_BOT builds a
 * PunisherBot, DUMB_BOT and every other value a DumbBot.
 */
module BotFactory {
  import opened Arena

  const DUMB_BOT: int := 10
  const PUNISHER_BOT: int := 11

  function StrategyFor(botAIType: int): (r: Strategy)
    ensures r == Punisher <==> botAIType == PUNISHER_BOT
    ensures botAIType == DUMB_BOT ==> r == Dumb
  {
    if botAIType == DUMB_BOT then Dumb
    else if botAIType == PUNISHER_BOT then Punisher
    else Dumb
  }

  method CreateBot(botAIType: int, numPlayers: int, id: int) returns (bot: Bot)
    requires 0 <= id < numPlayers
    ensures fresh(bot) && fresh(bot.players) && bot.Valid()
    ensures bot.strategy == StrategyFor(botAIType)
    ensures IsInitial(bot.State(), numPlayers, id)
  {
    if botAIType == DUMB_BOT {
      bot := new Bot(Dumb, numPlayers, id);
    } else if botAIType == PUNISHER_BOT {
      bot := new Bot(Punisher, numPlayers, id);
    } else {
      bot := new Bot(Dumb, numPlayers, id);
    }
  }
}
