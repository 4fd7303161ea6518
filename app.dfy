/**
 * app.py: the single-player Flask front end. Two module-level slots remember the
 * last emoji clicked on the player card and on the centre card; a click on one
 * side is compared with the other side, and a match scores and advances the
 * cards. The player id is fixed at 0 and the names are player1 .. player5.
 */
module App {

  import opened Util
  import Plane
  import opened GameLogic

  const NAMES: seq<string> := ["player1", "player2", "player3", "player4", "player5"]
  const PLAYER_ID: int := 0

  // ---------------------------------------------------------------------------
  // The DONE marker
  // ---------------------------------------------------------------------------

  /** Python's max on a non-empty list. */
  function Max(s: seq<int>): (m: int)
    requires |s| > 0
    ensures m in s && forall j :: 0 <= j < |s| ==> s[j] <= m
  {
    if |s| == 1 then s[0]
    else if s[|s| - 1] > Max(s[..|s| - 1]) then s[|s| - 1]
    else Max(s[..|s| - 1])
  }

  /** Python's list.index: the first position holding x. */
  function IndexOf(s: seq<int>, x: int): (i: nat)
    requires x in s
    ensures i < |s| && s[i] == x && forall j :: 0 <= j < i ==> s[j] != x
  {
    if s[0] == x then 0 else 1 + IndexOf(s[1..], x)
  }

  /** scores.index(max(scores)): the first player with the highest score. */
  function Winner(scores: seq<int>): (w: nat)
    requires |scores| > 0
    ensures w < |scores|
    ensures forall j :: 0 <= j < |scores| ==> scores[j] <= scores[w]
    ensures forall j :: 0 <= j < w ==> scores[j] < scores[w]
  {
    var m := Max(scores);
    var w := IndexOf(scores, m);
    assert forall j :: 0 <= j < w ==> scores[j] <= m && scores[j] != m;
    w
  }

  /** What the page shows in the centre: the front card, or the end-of-game marker. */
  datatype Center = CenterCard(card: Card) | Done(marker: string)

  /**
   * get_player_center_emojis (app.py): an empty centre becomes "DONE " followed
   * by the name of the first player with the maximum score.
   */
  function CenterView(center: Option<Card>, names: seq<string>, scores: seq<int>): (v: Center)
    requires center.None? ==> |scores| > 0 && Winner(scores) < |names|
    ensures v.Done? <==> center.None?
    ensures center.Some? ==> v == CenterCard(center.value)
    ensures center.None? ==> v.marker == "DONE " + names[Winner(scores)]
  {
    if center.None? then Done("DONE " + names[Winner(scores)]) else CenterCard(center.value)
  }

  // ---------------------------------------------------------------------------
  // Rotating the player's card
  // ---------------------------------------------------------------------------

  /** Clockwise: an outer slot i in 1..7 moves to (i % 7) + 1; the middle slot 0 stays. */
  function Clockwise(i: int): (r: int)
    ensures i == 0 ==> r == 0
    ensures 1 <= i < 7 ==> r == i + 1
    ensures i == 7 ==> r == 1
  {
    if i != 0 then (i % 7) + 1 else i
  }

  /** Counter-clockwise: an outer slot i moves to ((i - 2) % 7) + 1, Python's non-negative %. */
  function CounterClockwise(i: int): (r: int)
    ensures i == 0 ==> r == 0
    ensures i == 1 ==> r == 7
    ensures 2 <= i <= 7 ==> r == i - 1
  {
    if i != 0 then ((i - 2) % 7) + 1 else i
  }

  /** Both rotations keep the middle slot and move the outer slots among 1..7, each undoing the other. */
  lemma RotationsInverse(i: int)
    requires 0 <= i <= 7
    ensures Clockwise(0) == 0 && CounterClockwise(0) == 0
    ensures 1 <= i ==> 1 <= Clockwise(i) <= 7 && 1 <= CounterClockwise(i) <= 7
    ensures CounterClockwise(Clockwise(i)) == i && Clockwise(CounterClockwise(i)) == i
  {
  }

  /** Each rotation is a permutation of the outer slots 1..7: no two slots land on the same one. */
  lemma RotationsInjective(i: int, j: int)
    requires 0 <= i <= 7 && 0 <= j <= 7 && i != j
    ensures Clockwise(i) != Clockwise(j) && CounterClockwise(i) != CounterClockwise(j)
  {
    RotationsInverse(i);
    RotationsInverse(j);
  }

  /** The new slot of one emoji for the direction given in the request (any other direction: unchanged). */
  function Turn(direction: string, i: int): (r: int)
    ensures direction != "clockwise" && direction != "counterclockwise" ==> r == i
    ensures i == 0 ==> r == 0
  {
    if direction == "clockwise" then Clockwise(i)
    else if direction == "counterclockwise" then CounterClockwise(i)
    else i
  }

  /** The card after the rotate loop: every emoji keeps its symbol, size and angle, and only its slot turns. */
  function Turned(card: Card, direction: string): (r: Card)
    ensures |r| == |card| && Signature(r) == Signature(card)
    ensures forall t :: 0 <= t < |card| ==> r[t].size == card[t].size && r[t].rotation == card[t].rotation
  {
    seq(|card|, t requires 0 <= t < |card| => card[t].(index := Turn(direction, card[t].index)))
  }

  /** Rotating one way and then the other gives the card back. */
  lemma TurnedInverse(card: Card)
    requires forall t :: 0 <= t < |card| ==> 0 <= card[t].index <= 7
    ensures Turned(Turned(card, "clockwise"), "counterclockwise") == card
    ensures Turned(Turned(card, "counterclockwise"), "clockwise") == card
  {
    forall t | 0 <= t < |card|
      ensures Turned(Turned(card, "clockwise"), "counterclockwise")[t] == card[t]
      ensures Turned(Turned(card, "counterclockwise"), "clockwise")[t] == card[t]
    {
      RotationsInverse(card[t].index);
    }
  }

  /** The slots 0..7 are exactly the integers in that range. */
  lemma SlotsRange(v: int)
    ensures v in Elements(Slots) <==> 0 <= v <= 7
  {
    if 0 <= v <= 7 {
      assert Slots[v] == v;
    }
  }

  /** For every direction, Turn permutes the slots 0..7. */
  lemma TurnPermutes(direction: string, i: int, j: int) returns (w: int)
    requires 0 <= i <= 7 && 0 <= j <= 7
    ensures 0 <= Turn(direction, i) <= 7
    ensures i != j ==> Turn(direction, i) != Turn(direction, j)
    ensures 0 <= w <= 7 && Turn(direction, w) == i
  {
    RotationsInverse(i);
    RotationsInverse(j);
    if i != j {
      RotationsInjective(i, j);
    }
    w := if direction == "clockwise" then CounterClockwise(i)
         else if direction == "counterclockwise" then Clockwise(i) else i;
  }

  /** A rotated card still uses every slot 0..7 exactly once. */
  lemma TurnedKeepsSlots(card: Card, direction: string)
    requires Distinct(Indices(card)) && Elements(Indices(card)) == Elements(Slots)
    ensures Distinct(Indices(Turned(card, direction)))
    ensures Elements(Indices(Turned(card, direction))) == Elements(Slots)
  {
    var c := Turned(card, direction);
    forall t | 0 <= t < |card|
      ensures 0 <= card[t].index <= 7 && Indices(c)[t] == Turn(direction, card[t].index)
    {
      assert Indices(card)[t] in Elements(Slots);
      SlotsRange(Indices(card)[t]);
    }
    forall s, t | 0 <= s < t < |c|
      ensures Indices(c)[s] != Indices(c)[t]
    {
      assert Indices(card)[s] != Indices(card)[t];
      var _ := TurnPermutes(direction, card[s].index, card[t].index);
    }
    forall v
      ensures v in Elements(Indices(c)) <==> v in Elements(Slots)
    {
      SlotsRange(v);
      if v in Elements(Indices(c)) {
        var t :| 0 <= t < |c| && Indices(c)[t] == v;
        var _ := TurnPermutes(direction, card[t].index, card[t].index);
      }
      if 0 <= v <= 7 {
        var w := TurnPermutes(direction, v, v);
        SlotsRange(w);
        assert w in Elements(Indices(card));
        var t :| 0 <= t < |card| && Indices(card)[t] == w;
        assert Indices(c)[t] == v;
      }
    }
  }

  /**
   * The slots of a card as a multiset are those of range(8) exactly when they
   * are without repeats and cover 0..7.
   */
  lemma SlotsMultiset(ids: seq<int>)
    ensures multiset(ids) == multiset(Slots) <==> Distinct(ids) && Elements(ids) == Elements(Slots)
  {
    SlotsDistinct();
    PermutationOfDistinct(ids, Slots);
  }

  /** A rotated card is still a card as generate_cards deals it. */
  lemma TurnedWellFormed(card: Card, direction: string)
    requires WellFormedCard(card)
    ensures WellFormedCard(Turned(card, direction))
  {
    SlotsMultiset(Indices(card));
    TurnedKeepsSlots(card, direction);
    SlotsMultiset(Indices(Turned(card, direction)));
  }

  /** The piles rotate leaves behind: when every card was well formed, every card still is. */
  lemma RotatedPilesWellFormed(piles: seq<seq<Card>>, direction: string)
    requires PLAYER_ID < |piles| && |piles[PLAYER_ID]| > 0
    requires forall i, t :: 0 <= i < |piles| && 0 <= t < |piles[i]| ==> WellFormedCard(piles[i][t])
    ensures var pile := piles[PLAYER_ID];
      var after := piles[PLAYER_ID := pile[|pile| - 1 := Turned(pile[|pile| - 1], direction)]];
      forall i, t :: 0 <= i < |after| && 0 <= t < |after[i]| ==> WellFormedCard(after[i][t])
  {
    var pile := piles[PLAYER_ID];
    var after := piles[PLAYER_ID := pile[|pile| - 1 := Turned(pile[|pile| - 1], direction)]];
    TurnedWellFormed(pile[|pile| - 1], direction);
    forall i, t | 0 <= i < |after| && 0 <= t < |after[i]|
      ensures WellFormedCard(after[i][t])
    {
      if i != PLAYER_ID || t != |pile| - 1 {
        assert after[i][t] == piles[i][t];
      }
    }
  }

  /** JavaScript and Python truthiness of a request value: present and not the empty string. */
  predicate Truthy(o: Option<string>) {
    o.Some? && o.value != ""
  }

  /** The containerId and highlight added to the rotate response, if any. */
  function RotateHighlight(player: Option<string>, center: Option<string>): (h: Option<(string, string)>)
    ensures h.Some? && h.value.0 == "center-circle-container" <==> Truthy(center) && player.None?
    ensures h.Some? && h.value.0 == "player-circle-container" <==> Truthy(player) && center.None?
    ensures h.Some? ==> (h.value.0 == "center-circle-container" && h.value.1 == center.value) ||
                        (h.value.0 == "player-circle-container" && h.value.1 == player.value)
  {
    if Truthy(center) && player.None? then Some(("center-circle-container", center.value))
    else if Truthy(player) && center.None? then Some(("player-circle-container", player.value))
    else None
  }

  // ---------------------------------------------------------------------------
  // Click handling
  // ---------------------------------------------------------------------------

  /** How an f-string shows a request value: the string itself, or None. */
  function Show(o: Option<string>): string {
    if o.Some? then o.value else "None"
  }

  /** The JSON the click handlers answer with. */
  datatype ClickResponse =
    | Matched(message: string, player: Card, center: Option<Card>, names: seq<string>, scores: seq<int>)
    | Mismatched(message: string)
    | Highlight(highlight: Option<string>)

  datatype RotateResponse = RotateResponse(player: Card, center: Center, highlight: Option<(string, string)>)

  /** The Flask app: the game it serves and the two last-clicked slots. */
  class App {
    var game: SpotItGame
    var lastClickedPlayerEmoji: Option<string>
    var lastClickedCenterEmoji: Option<string>

    /** The game deals to the five players and player 0 has a card on top. */
    predicate Valid()
      reads this, game
    {
      game.Valid() && game.nPlayers == |NAMES|
    }

    /** At most one slot holds an emoji between requests. */
    predicate OneSlotOpen()
      reads this
    {
      lastClickedPlayerEmoji == None || lastClickedCenterEmoji == None
    }

    /** The module start-up: a new game for the five names, both slots empty. */
    constructor(rnd: Random, deckPicks: seq<int>)
      requires ValidRandom(rnd) && ValidPicks(deckPicks, DECK_SIZE)
      ensures Valid() && OneSlotOpen() && fresh(game)
      ensures lastClickedPlayerEmoji == None && lastClickedCenterEmoji == None
      ensures game.playerNames == NAMES && game.scores == [0, 0, 0, 0, 0] && game.HoldsDeck()
      ensures |game.cards| == DECK_SIZE && game.points == Plane.CanonicalPoints() && PointTable(game.points)
      ensures forall c :: c in game.cards ==> WellFormedCard(c) && IsLineCard(game.points, c)
      ensures Distinct(Signatures(game.cards))
      ensures forall i :: 0 <= i < |NAMES| ==> game.piles[i] == [game.cards[i]]
      ensures game.center == game.cards[|NAMES|..]
    {
      game := new SpotItGame(NAMES, None, None, None, rnd, deckPicks);
      lastClickedPlayerEmoji := None;
      lastClickedCenterEmoji := None;
    }

    /** get_player_center_emojis (app.py): player 0's top card and the centre view. */
    function View(): (r: (Card, Center))
      reads this, game
      requires Valid()
      ensures r.0 == game.piles[PLAYER_ID][|game.piles[PLAYER_ID]| - 1]
      ensures r.1.Done? <==> |game.center| == 0
      ensures |game.center| > 0 ==> r.1 == CenterCard(game.center[0])
      ensures |game.center| == 0 ==> r.1.marker == "DONE " + NAMES[Winner(game.scores)]
    {
      var (player, center) := game.PlayerCenterEmojis(PLAYER_ID);
      (player, CenterView(center, NAMES, game.scores))
    }

    /**
     * clicked_player and clicked_center: the clicked side's slot is set to `emoji`,
     * then compared with the other slot. Equal (None equals None, so a request
     * without an emoji matches an empty slot) scores one point for player 0 and
     * runs update_cards; a different, set slot is a mismatch; an empty slot only
     * asks for the emoji to be highlighted. `onPlayer` says which handler runs.
     */
    method Click(onPlayer: bool, emoji: Option<string>) returns (r: ClickResponse)
      requires Valid()
      modifies this, game
      ensures Valid() && game == old(game) && OneSlotOpen()
      ensures game.playerNames == old(game.playerNames) && game.cards == old(game.cards)
      ensures game.points == old(game.points) && game.nPlayers == old(game.nPlayers)
      ensures game.lastClickedPlayerEmoji == old(game.lastClickedPlayerEmoji)
      ensures game.lastClickedCenterEmoji == old(game.lastClickedCenterEmoji)
      ensures var other := if onPlayer then old(lastClickedCenterEmoji) else old(lastClickedPlayerEmoji);
        if emoji == other then
          game.scores == old(game.scores)[PLAYER_ID := old(game.scores[PLAYER_ID]) + 1] &&
          (game.piles, game.center) == Moved(old(game.piles), old(game.center), PLAYER_ID) &&
          lastClickedPlayerEmoji == None && lastClickedCenterEmoji == None &&
          r == Matched("You found a match " + Show(emoji) + "!",
                       game.PlayerCenterEmojis(PLAYER_ID).0, game.PlayerCenterEmojis(PLAYER_ID).1,
                       NAMES, game.scores)
        else if other != None then
          game.scores == old(game.scores) && game.piles == old(game.piles) && game.center == old(game.center) &&
          lastClickedPlayerEmoji == None && lastClickedCenterEmoji == None &&
          r == Mismatched(Show(if onPlayer then emoji else old(lastClickedPlayerEmoji)) + " and " +
                          Show(if onPlayer then old(lastClickedCenterEmoji) else emoji) + " is not a match!")
        else
          game.scores == old(game.scores) && game.piles == old(game.piles) && game.center == old(game.center) &&
          (if onPlayer then lastClickedPlayerEmoji == emoji && lastClickedCenterEmoji == None
           else lastClickedCenterEmoji == emoji && lastClickedPlayerEmoji == None) &&
          r == Highlight(emoji)
    {
      if onPlayer {
        lastClickedPlayerEmoji := emoji;
      } else {
        lastClickedCenterEmoji := emoji;
      }
      if lastClickedPlayerEmoji == lastClickedCenterEmoji {
        r := Score(lastClickedPlayerEmoji);
        lastClickedPlayerEmoji := None;
        lastClickedCenterEmoji := None;
      } else if (if onPlayer then lastClickedCenterEmoji else lastClickedPlayerEmoji) != None {
        r := Mismatched(Show(lastClickedPlayerEmoji) + " and " + Show(lastClickedCenterEmoji) + " is not a match!");
        lastClickedPlayerEmoji := None;
        lastClickedCenterEmoji := None;
      } else {
        r := Highlight(emoji);
      }
    }

    /** The match branch of both handlers: player 0 scores a point and draws the centre's front card. */
    method Score(emoji: Option<string>) returns (r: ClickResponse)
      requires Valid()
      modifies game
      ensures Valid()
      ensures game.playerNames == old(game.playerNames) && game.cards == old(game.cards)
      ensures game.points == old(game.points) && game.nPlayers == old(game.nPlayers)
      ensures game.lastClickedPlayerEmoji == old(game.lastClickedPlayerEmoji)
      ensures game.lastClickedCenterEmoji == old(game.lastClickedCenterEmoji)
      ensures game.scores == old(game.scores)[PLAYER_ID := old(game.scores[PLAYER_ID]) + 1]
      ensures (game.piles, game.center) == Moved(old(game.piles), old(game.center), PLAYER_ID)
      ensures r == Matched("You found a match " + Show(emoji) + "!",
                           game.PlayerCenterEmojis(PLAYER_ID).0, game.PlayerCenterEmojis(PLAYER_ID).1,
                           NAMES, game.scores)
    {
      game.scores := game.scores[PLAYER_ID := game.scores[PLAYER_ID] + 1];
      var player, center := game.UpdateCards(PLAYER_ID);
      r := Matched("You found a match " + Show(emoji) + "!", player, center, NAMES, game.scores);
    }

    /** shuffle: the centre pile is shuffled by `picks`; the player piles stay. */
    method ShuffleCenter(picks: seq<int>) returns (player: Card, center: Center)
      requires Valid() && ValidPicks(picks, |game.center|)
      modifies game
      ensures Valid() && multiset(game.center) == old(multiset(game.center)) && |game.center| == old(|game.center|)
      ensures game.piles == old(game.piles) && game.scores == old(game.scores) && game.cards == old(game.cards)
      ensures game.playerNames == old(game.playerNames) && game.points == old(game.points)
      ensures game.lastClickedPlayerEmoji == old(game.lastClickedPlayerEmoji)
      ensures game.lastClickedCenterEmoji == old(game.lastClickedCenterEmoji)
      ensures AllCards(game.piles, game.center) == old(AllCards(game.piles, game.center))
      ensures (player, center) == View()
    {
      game.center := Shuffle(game.center, picks);
      player, center := View().0, View().1;
    }

    /** The rotated card takes the place of player 0's top card; nothing else in the game changes. */
    method PutTop(card: Card)
      requires Valid()
      modifies game
      ensures Valid() && game.center == old(game.center) && game.scores == old(game.scores)
      ensures game.playerNames == old(game.playerNames) && game.cards == old(game.cards)
      ensures game.points == old(game.points) && game.nPlayers == old(game.nPlayers)
      ensures game.lastClickedPlayerEmoji == old(game.lastClickedPlayerEmoji)
      ensures game.lastClickedCenterEmoji == old(game.lastClickedCenterEmoji)
      ensures var pile := old(game.piles[PLAYER_ID]);
        game.piles == old(game.piles)[PLAYER_ID := pile[|pile| - 1 := card]]
    {
      var pile := game.piles[PLAYER_ID];
      var piles := game.piles[PLAYER_ID := pile[|pile| - 1 := card]];
      assert forall i :: 0 <= i < |piles| ==> |piles[i]| > 0;
      game.piles := piles;
    }

    /**
     * rotate: every emoji of player 0's top card moves to its next slot in the
     * requested direction. The card is replaced in the pile; the answer carries
     * the highlight of the one slot that is set, if any.
     */
    method Rotate(direction: string) returns (r: RotateResponse)
      requires Valid()
      modifies game
      ensures Valid() && game.center == old(game.center) && game.scores == old(game.scores)
      ensures game.playerNames == old(game.playerNames) && game.cards == old(game.cards)
      ensures game.points == old(game.points) && game.nPlayers == old(game.nPlayers)
      ensures game.lastClickedPlayerEmoji == old(game.lastClickedPlayerEmoji)
      ensures game.lastClickedCenterEmoji == old(game.lastClickedCenterEmoji)
      ensures var pile := old(game.piles[PLAYER_ID]);
        game.piles == old(game.piles)[PLAYER_ID := pile[|pile| - 1 := Turned(pile[|pile| - 1], direction)]]
      ensures r == RotateResponse(View().0, View().1, RotateHighlight(lastClickedPlayerEmoji, lastClickedCenterEmoji))
    {
      var pile := game.piles[PLAYER_ID];
      var card := TurnCard(pile[|pile| - 1], direction);
      PutTop(card);
      var view := View();
      r := RotateResponse(view.0, view.1, RotateHighlight(lastClickedPlayerEmoji, lastClickedCenterEmoji));
    }
  }

  /** The loop of rotate over the emojis of one card. */
  method TurnCard(card: Card, direction: string) returns (turned: Card)
    ensures turned == Turned(card, direction)
    ensures WellFormedCard(card) ==> WellFormedCard(turned)
  {
    turned := card;
    var k := 0;
    while k < |turned|
      invariant 0 <= k <= |turned| == |card|
      invariant forall t :: 0 <= t < k ==> turned[t] == Turned(card, direction)[t]
      invariant forall t :: k <= t < |turned| ==> turned[t] == card[t]
    {
      turned := turned[k := turned[k].(index := Turn(direction, turned[k].index))];
      k := k + 1;
    }
    assert turned == Turned(card, direction);
    if WellFormedCard(card) {
      TurnedWellFormed(card, direction);
    }
  }

  /** Between requests the app answers a rotate with at most the one slot that is set. */
  lemma RotateHighlightsOneSide(player: Option<string>, center: Option<string>)
    requires player == None || center == None
    ensures RotateHighlight(player, center).Some? ==> Truthy(player) || Truthy(center)
    ensures Truthy(center) ==> RotateHighlight(player, center) == Some(("center-circle-container", center.value))
    ensures Truthy(player) ==> RotateHighlight(player, center) == Some(("player-circle-container", player.value))
  {
  }
}
