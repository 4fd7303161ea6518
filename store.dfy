/**
 * spotit_persistent_store.py: the table of games kept by PersistentStore.
 * A game has its players, the number of players it waits for, its cards and a
 * small state record. Python dictionaries keep their keys in insertion order,
 * so the table is a map together with the order in which its ids were added.
 */
module Store {

  import opened Util
  import opened GameLogic

  datatype GameState = GameState(currentTurn: string, status: string)

  datatype GameRecord = GameRecord(players: seq<string>, numPlayers: int, cards: seq<Card>, state: GameState)

  /** A game whose player list has no repeated name and is not over its limit. */
  predicate Seated(g: GameRecord) {
    Distinct(g.players) && |g.players| <= g.numPlayers
  }

  /** The record create_game stores: only the host has joined and the game waits. */
  function NewGame(host: string, numPlayers: int): GameRecord {
    GameRecord([host], numPlayers, [], GameState(host, "waiting"))
  }

  /** A new game is seated whenever it allows at least its host. */
  lemma NewGameSeated(host: string, numPlayers: int)
    requires numPlayers >= 1
    ensures Seated(NewGame(host, numPlayers))
    ensures |NewGame(host, numPlayers).players| == 1
  {
  }

  class PersistentStore {
    var games: map<string, GameRecord>
    var order: seq<string>

    /** `order` lists every game id once, oldest first. */
    predicate Valid()
      reads this
    {
      Distinct(order) && Elements(order) == games.Keys
    }

    /** A store with no games (reading the JSON file is not modelled). */
    constructor()
      ensures Valid() && games == map[] && order == []
    {
      games := map[];
      order := [];
    }

    /** create_game: rejected, with nothing changed, when the id is taken. */
    method CreateGame(gameId: string, hostPlayer: string, numPlayers: int) returns (ok: bool)
      requires Valid()
      modifies this
      ensures Valid()
      ensures ok <==> gameId !in old(games)
      ensures !ok ==> games == old(games) && order == old(order)
      ensures ok ==> games == old(games)[gameId := NewGame(hostPlayer, numPlayers)] && order == old(order) + [gameId]
    {
      if gameId in games {
        return false;
      }
      games := games[gameId := NewGame(hostPlayer, numPlayers)];
      order := order + [gameId];
      ok := true;
    }

    /**
     * join_game: rejected for an unknown game, a name already in the game, or a
     * full game; otherwise the name is appended to the player list.
     */
    method JoinGame(gameId: string, playerName: string) returns (ok: bool)
      requires Valid()
      modifies this
      ensures Valid() && order == old(order) && games.Keys == old(games.Keys)
      ensures ok <==> gameId in old(games) && playerName !in old(games[gameId].players) &&
                      |old(games[gameId].players)| < old(games[gameId].numPlayers)
      ensures !ok ==> games == old(games)
      ensures ok ==> games == old(games)[gameId := old(games[gameId]).(players := old(games[gameId].players) + [playerName])]
      ensures forall id :: id in old(games) && Seated(old(games[id])) ==> Seated(games[id])
    {
      if gameId !in games || playerName in games[gameId].players {
        return false;
      }
      var game := games[gameId];
      if |game.players| >= game.numPlayers {
        return false;
      }
      games := games[gameId := game.(players := game.players + [playerName])];
      ok := true;
    }

    /** get_game: the stored record, or None for an unknown id. */
    function GetGame(gameId: string): (r: Option<GameRecord>)
      reads this
      ensures r == None <==> gameId !in games
      ensures r != None ==> r.value == games[gameId]
    {
      if gameId in games then Some(games[gameId]) else None
    }

    /** update_game: the record of gameId is replaced (or added last); every other game stays. */
    method UpdateGame(gameId: string, gameData: GameRecord)
      requires Valid()
      modifies this
      ensures Valid()
      ensures games == old(games)[gameId := gameData]
      ensures order == if gameId in old(games) then old(order) else old(order) + [gameId]
      ensures forall id :: id in old(games) && id != gameId ==> games[id] == old(games[id])
    {
      if gameId !in games {
        order := order + [gameId];
      }
      games := games[gameId := gameData];
    }

    /** list_games: every game id exactly once, in the order the games were added. */
    function ListGames(): (ids: seq<string>)
      reads this
      requires Valid()
      ensures Elements(ids) == games.Keys && Distinct(ids) && |ids| == |games|
      ensures ids == order
    {
      DistinctCard(order);
      order
    }
  }
}
