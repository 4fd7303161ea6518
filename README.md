# Spot-It: a Dafny model of the game core

Spot-It is a card game. Every pair of cards shares exactly one emoji, and a
player scores by naming it first. The repository is a small web version:

- a Python game engine that builds the deck from the projective plane of order 7;
- a Flask app that turns clicks into matches;
- a store of game records;
- replicated game-state servers that elect a leader and count replication
  acknowledgements;
- a browser script that tracks the selected emojis, the session id and the
  restart cooldown.

One Dafny module models each core file. Two modules are shared vocabulary.

| module | file | models |
|---|---|---|
| `Util` | util.dfy | `Option` (None/null), sequences without repeats, substring search |
| `Plane` | plane.dfy | GF(7) and PG(2,7): `normalize_point`, incidence, the meet of two lines, the 8 points of a line |
| `GameLogic` | game_logic.dfy | `ALL_EMOJIS`, `generate_cards`, `shuffle_cards`, the class `SpotItGame` |
| `App` | app.dfy | app.py: the click handlers, `shuffle`, `rotate`, the DONE/winner view |
| `Store` | store.dfy | `PersistentStore`'s table of games |
| `Server` | server.dfy | `LeaderElection.elect`, `ChatService.replicate_to_peers`, `SaveGameState`, `CheckVersion` |
| `Client` | client.dfy | static/script.js: `highlightEmoji`, the poll, `fetchWithSession`, the login redirect, the restart countdown, `showVoteStatus` |

Each imperative part of the source is a class or a method with loops:

- `generate_cards` keeps its nested loops.
- `SpotItGame`, the Flask globals, `PersistentStore`, `LeaderElection` and the
  page state of the script are classes.
- Each method's `ensures` ties its result or new state to a specification
  function, and the lemmas state the properties of those functions.

The central results:

- **The deck.** `GenerateCards` returns 57 cards. Each has eight emojis in the
  slots 0..7, and no two cards have the same emoji sequence. Emoji i labels the
  i-th point of the canonical enumeration, as in the source.
  `CardsShareExactlyOne` proves that two cards of the deck share exactly one
  emoji exactly when their emoji sequences differ. The shuffle keeps the
  sequences distinct, so `DeckPositionsShareOne` gives the same for the dealt
  deck: two cards share exactly one emoji exactly when they sit at different
  positions.
- **The piles.** A new game deals `cards[i]` to player i and the rest to the
  centre. `update_cards` moves one card and keeps the multiset of all cards.
- **Clicks.** A click scores exactly when the two slots agree. Between
  requests at most one slot is set.
- **Elections.** The leader is the least live id, never above the electing
  server.
- **The client.** Adding the session id is idempotent. The countdown label
  reads back the number written into it, and a cooldown of n seconds ends
  after n ticks.

Inputs stand in for randomness and I/O:

- `random.shuffle` is a list of picks (`ValidPicks`).
- `random.randint` sizes and rotations are the functions of `Random`, within
  the bounds the source draws from.
- Ping results and replication answers are sequences of booleans, one per peer.
- The polled JSON, the URL parameter and the stored session id are arguments.

## Model

| member | source | states |
|---|---|---|
| GameLogic.AllEmojiIds | spotit_game_logic.py:5-12 | `ALL_EMOJIS` has q²+q+1 = 57 entries, so every emoji_id is a valid index, and each entry has its own id |
| GameLogic.AllEmojisDistinct | spotit_game_logic.py:5-12 | no emoji occurs twice in `ALL_EMOJIS` |
| GameLogic.EmojiPositionUnique | spotit_game_logic.py:5-12 | an emoji determines its position in `ALL_EMOJIS` |
| Plane.Inverse | spotit_game_logic.py:26 | `sympy.invert(c, 7)` for c in 1..6: a value in 1..6 with c·r ≡ 1 (mod 7) |
| Plane.Normalize | spotit_game_logic.py:23-28 | a non-zero point becomes a multiple k·p (k in 1..6) whose first non-zero coordinate is 1; the zero triple is returned as is |
| Plane.NormalizeCanonical | spotit_game_logic.py:23-28 | normalizing an already normalized point changes nothing |
| Plane.NormalizeParallel | spotit_game_logic.py:23-28 | two non-zero triples normalize to the same point exactly when one is a non-zero multiple of the other |
| Plane.CanonicalPointsExact | spotit_game_logic.py:29-36 | the normalized points are exactly the triples whose first non-zero coordinate is 1 |
| Plane.CanonicalPoints | spotit_game_logic.py:36 | there are q²+q+1 = 57 of them |
| Plane.LinePointsExact | spotit_game_logic.py:46-47 | the points of line (a,b,c) are exactly the normalized points with a·x+b·y+c·z ≡ 0 (mod 7) |
| Plane.LinePoints | spotit_game_logic.py:46-47 | every line has q+1 = 8 points |
| Plane.Meet | spotit_game_logic.py:46-47 | two lines with different normal forms meet in a normalized point |
| Plane.MeetIncident | spotit_game_logic.py:46-47 | the meet lies on both lines |
| Plane.MeetIsUnique | spotit_game_logic.py:46-47 | every normalized point on both lines is the meet |
| GameLogic.AllPoints | spotit_game_logic.py:17-22 | the first loop lists exactly the 342 non-zero triples over 0..6, in loop order: the position 49x+7y+z strictly increases along the list |
| GameLogic.NormalizedPoints | spotit_game_logic.py:29-36 | deduplicating the normal forms in loop order gives exactly the canonical enumeration `CanonicalPoints()`, in that order: 57 distinct points, every normalized point once |
| GameLogic.AppendSorted | spotit_game_logic.py:18-22 | appending a triple later in loop order keeps the list in loop order |
| GameLogic.NormalizeCodeBelow | spotit_game_logic.py:23-28 | a non-normalized triple normalizes to a triple earlier in loop order |
| GameLogic.CanonicalsOf | spotit_game_logic.py:31-35 | the normalized triples of a list, in list order: a triple is kept exactly when it is in the list and normalized |
| GameLogic.CanonicalsSorted | spotit_game_logic.py:31-35 | the normalized triples of a list in loop order are in loop order |
| GameLogic.NormalizedStep | spotit_game_logic.py:31-35 | in loop order, a triple's normal form has been seen exactly when the triple is not normalized, and a normalized triple is its own normal form |
| GameLogic.SortedUnique | spotit_game_logic.py:29-36 | two lists in strict loop order with the same members are equal |
| GameLogic.CanonicalPointsSorted | spotit_game_logic.py:29-36 | the canonical enumeration is in loop order |
| GameLogic.CanonicalPointsTable | spotit_game_logic.py:36 | the canonical enumeration has 57 distinct entries, exactly the normalized points |
| GameLogic.IncidentIds | spotit_game_logic.py:46-47 | the emoji ids below k whose point lies on the line, ascending, are all of them |
| GameLogic.IncidentIdsMember | spotit_game_logic.py:46-47 | an id is listed exactly when it is below k and its point is on the line |
| GameLogic.IncidentIdsGrow | spotit_game_logic.py:46-54 | scanning more points never lists fewer ids |
| GameLogic.IncidentIdsStep | spotit_game_logic.py:46-54 | one scanned point adds its id exactly when it is on the line |
| GameLogic.LineHasEightPoints | spotit_game_logic.py:46-55 | every non-zero (a,b,c) has exactly 8 incident points, so `i == 8` always holds |
| GameLogic.IncidentIdsNormalize | spotit_game_logic.py:46-47 | a line and its normal form have the same incident points |
| GameLogic.LineSignatureNormalize | spotit_game_logic.py:46-60 | a line and its normal form give the same emoji sequence |
| GameLogic.EmojisAtInjective | spotit_game_logic.py:49 | different id lists give different emoji sequences |
| GameLogic.LineSignatureInjective | spotit_game_logic.py:46-60 | different normalized lines give different emoji sequences |
| GameLogic.LineSignature | spotit_game_logic.py:46-53 | the emoji of point j is on the card of line l exactly when point j lies on l |
| GameLogic.IncidentEmojis | spotit_game_logic.py:46-49 | the emojis at the incident ids are exactly the emojis of the points on the line |
| GameLogic.EmojiSetOfLine | spotit_game_logic.py:46-53 | an emoji is on a line's card exactly when its point lies on the line |
| GameLogic.LineCardEmojis | spotit_game_logic.py:46-55 | a line's card has 8 entries and 8 different emojis |
| GameLogic.CommonEmojiIsMeet | spotit_game_logic.py:46-47 | two cards of different lines share exactly the emoji of the lines' meet |
| GameLogic.SharedEmoji | spotit_game_logic.py:46-53 | when exactly one point lies on both lines, its emoji is the only one both cards have |
| GameLogic.DifferentLinesShareOne | spotit_game_logic.py:46-47 | cards of different lines share exactly one emoji and have different sequences |
| GameLogic.SameLineSameSignature | spotit_game_logic.py:46-60 | the cards of two proportional triples carry the same emoji sequence |
| GameLogic.SameSignatureSharesAll | spotit_game_logic.py:56-60 | two cards with the same eight distinct emojis share all eight |
| GameLogic.CardsShareExactlyOne | spotit_game_logic.py:46-64 | two cards of the deck share exactly one emoji if and only if their emoji sequences differ |
| GameLogic.DeckSize | spotit_game_logic.py:57-64 | one distinct sequence per line of the plane makes exactly 57 sequences |
| GameLogic.Shuffle | spotit_game_logic.py:67-69 | `random.shuffle` keeps the length and the multiset of elements |
| GameLogic.ShuffleKeepsSignaturesDistinct | spotit_game_logic.py:67-69 | a rearranged deck still has pairwise different emoji sequences |
| GameLogic.SlotsDistinct | spotit_game_logic.py:44 | `range(8)` has no repeats |
| GameLogic.CardForLine | spotit_game_logic.py:42-55 | one card per triple: 8 emojis, their indices a permutation of 0..7, sizes in 20..80, rotations in 0..360, the line's emojis in id order |
| GameLogic.DealLine | spotit_game_logic.py:46-54 | the inner loop deals the i-th shuffled slot to the i-th incident emoji |
| GameLogic.DealPoint | spotit_game_logic.py:47-54 | one step of the inner loop keeps the dealt prefix in step with the incident ids |
| GameLogic.PlaceEmoji | spotit_game_logic.py:47-54 | appending an incident point's emoji extends the card's emoji sequence to the next prefix |
| GameLogic.AppendDealt | spotit_game_logic.py:48-53 | the appended emoji keeps slots and bounds of the dealt prefix |
| GameLogic.AddLineOf | spotit_game_logic.py:41-56 | each non-zero triple appends its card and keeps the loop invariant |
| GameLogic.AddLine | spotit_game_logic.py:55-56 | appending a line's card keeps every card so far a well-formed line card and covers the triple |
| GameLogic.FirstTriple | spotit_game_logic.py:41 | the skipped triple (0,0,0) adds no card |
| GameLogic.IncidenceLines | spotit_game_logic.py:37-56 | 342 well-formed line cards (one per non-zero triple, by count), every line's sequence among them |
| GameLogic.UniqueBySignature | spotit_game_logic.py:57-64 | the kept cards are among the input, have distinct sequences and cover every input sequence; they are the first card of each sequence, in input order |
| GameLogic.SeenBefore | spotit_game_logic.py:59-63 | a card's sequence was seen before exactly when an earlier card has the same sequence |
| GameLogic.DeckOfLines | spotit_game_logic.py:57-64 | after deduplication exactly one card per line remains: 57 cards |
| GameLogic.GenerateCards | spotit_game_logic.py:14-65 | 57 well-formed line cards with distinct emoji sequences, one for every line; emoji i labels the i-th point of the canonical enumeration |
| GameLogic.SignaturesAppend | spotit_game_logic.py:60 | the tuples of emojis of a list grow by the appended card's tuple |
| GameLogic.CodeInjective | spotit_game_logic.py:18-20 | the loop position 49a+7b+c determines the triple |
| GameLogic.FlattenAppend | spotit_game_logic.py:106 | appending to one pile adds exactly that card to the piles |
| GameLogic.FlattenSingletons | spotit_game_logic.py:89 | piles [cards[0]], ..., [cards[n-1]] hold cards[:n] in order |
| GameLogic.DealKeepsDeck | spotit_game_logic.py:88-91 | the players' piles and the centre hold exactly the deck |
| GameLogic.Moved | spotit_game_logic.py:103-107 | the other piles are untouched; pile p keeps its cards at the bottom; pile p and the centre hold as many cards as before; the centre only loses cards at its front |
| GameLogic.MoveOntoPile | spotit_game_logic.py:103-107 | a non-empty centre moves its front onto pile p and drops it, other piles untouched; an empty centre changes nothing |
| GameLogic.MoveKeepsCards | spotit_game_logic.py:103-107 | moving a card keeps the multiset of all cards |
| GameLogic.MoveKeepsCount | spotit_game_logic.py:103-107 | moving a card keeps the total number of cards |
| GameLogic.SpotItGame.constructor | spotit_game_logic.py:72-95 | loaded state is taken as given; a new game has 57 shuffled line cards over the canonical enumeration with pairwise different emoji sequences, pile i = [cards[i]], centre = cards[n:], all scores 0, and both slots None |
| GameLogic.DeckPositionsShareOne | spotit_game_logic.py:88 | two cards of the dealt deck share exactly one emoji if and only if they sit at different positions |
| GameLogic.SpotItGame.PlayerCenterEmojis | spotit_game_logic.py:97-101 | the player's last card, and the centre front or None exactly when the centre is empty |
| GameLogic.SpotItGame.UpdateCards | spotit_game_logic.py:103-109 | callable when the player's pile or the centre has a card; the piles become the moved piles, nothing else changes, the cards are kept, and the answer is the new top cards |
| App.Max | app.py:18 | `max(scores)`: an element no smaller than any other |
| App.IndexOf | app.py:18 | `list.index`: the first position holding the value |
| App.Winner | app.py:18 | the winner has the highest score, and everyone before them has less |
| App.CenterView | app.py:13-20 | the centre card, or "DONE " + the winner's name exactly when the centre is empty |
| App.Clockwise | app.py:118-120 | slot 0 stays; slots 1..6 move up by one and slot 7 goes to 1 |
| App.CounterClockwise | app.py:122-124 | slot 0 stays; slot 1 goes to 7 and slots 2..7 move down by one |
| App.Turn | app.py:117-125 | a direction other than "clockwise" and "counterclockwise" leaves the slot as it is, and slot 0 never moves |
| App.Turned | app.py:117-125 | the rotated card has the same length and emoji sequence; sizes and rotations are kept, only the slots turn |
| App.RotationsInverse | app.py:118-124 | slot 0 stays, outer slots stay in 1..7, and each rotation undoes the other |
| App.RotationsInjective | app.py:118-124 | each rotation sends different slots to different slots |
| App.TurnPermutes | app.py:117-125 | for any direction, the slot map is a bijection on 0..7 |
| App.TurnedInverse | app.py:117-125 | rotating a card one way and back gives the card back |
| App.TurnedKeepsSlots | app.py:117-125 | a rotated card still uses each slot 0..7 exactly once |
| App.SlotsRange | spotit_game_logic.py:44 | `range(8)` holds exactly 0..7 |
| App.SlotsMultiset | spotit_game_logic.py:44-45 | a list of slots is a rearrangement of `range(8)` exactly when it has no repeats and the slots 0..7 |
| App.TurnedWellFormed | app.py:117-125 | a rotated well-formed card is still well formed: eight emojis, each slot once, sizes and angles in range |
| App.RotatedPilesWellFormed | app.py:116-125 | if every card of the piles is well formed, so is every card after the top of pile 0 is rotated |
| App.TurnCard | app.py:117-125 | the loop over the emojis of one card gives the rotated card |
| App.RotateHighlight | app.py:131-136 | highlight the centre exactly when only the centre slot is set and truthy, the player card likewise, otherwise nothing |
| App.RotateHighlightsOneSide | app.py:131-136 | with at most one slot set, a truthy slot is always highlighted |
| App.App.constructor | app.py:8-11 | a new game for the five names: 57 well-formed line cards over the canonical enumeration with pairwise different emoji sequences, pile i = [cards[i]], centre = cards[5:], scores all 0, the deck held, both slots None |
| App.App.View | app.py:13-20 | the top of player 0's pile; the centre front, or the DONE marker with the first top scorer's name exactly when the centre is empty |
| App.App.Click | app.py:38-100 | equal slots: +1 point, `update_cards`, both slots reset, match message; other slot set: both reset, mismatch message; otherwise only record and highlight; the names, the deck, the point table and the game's own slots never change |
| App.App.Score | app.py:44-53 | player 0 gains one point, the piles move as `update_cards` moves them, nothing else changes, and the match response carries the new view and scores |
| App.App.ShuffleCenter | app.py:102-110 | the centre is permuted; the piles, scores, names, deck, point table and the game's slots are unchanged; the new view is returned |
| App.App.PutTop | app.py:116-117 | the given card replaces the top of player 0's pile; nothing else in the game changes |
| App.App.Rotate | app.py:112-137 | player 0's top card is replaced by its rotation; the centre, scores, names, deck, point table and the game's slots are unchanged; the response carries the new view and the highlight rule |
| Store.NewGameSeated | spotit_persistent_store.py:26-31 | a new game has only its host and respects the limit |
| Store.PersistentStore.constructor | spotit_persistent_store.py:6-15 | the store starts without games |
| Store.PersistentStore.CreateGame | spotit_persistent_store.py:22-33 | succeeds exactly for a new id and then stores the waiting game with its host, added last |
| Store.PersistentStore.JoinGame | spotit_persistent_store.py:35-44 | succeeds exactly for a known game without that name and below its limit, then appends the name; keeps every game seated |
| Store.PersistentStore.GetGame | spotit_persistent_store.py:46-48 | the stored record, or None exactly for an unknown id |
| Store.PersistentStore.UpdateGame | spotit_persistent_store.py:50-53 | replaces or adds the record, other games unchanged, a new id added last |
| Store.PersistentStore.ListGames | spotit_persistent_store.py:55-57 | exactly the insertion-order list that create_game and update_game extend: every id once, as many as there are games |
| Server.PeerStep | server.py:69-81 | after a ping the peer is seen exactly when it was seen before or answered; it is up only if it answered, and a seen peer that was down stays down |
| Server.PeerStepRules | server.py:69-81 | all four cases: never-seen peers take the ping result; seen peers stay seen, a failed ping marks them dead, and an answered ping leaves their status as it was |
| Server.Track | server.py:67-81 | after a series of pings a peer is seen exactly when it was seen before or answered one; it is up only if it answered the last |
| Server.DeadStaysDead | server.py:76-81 | a peer that died after being seen never comes back, whatever later pings say |
| Server.SeenStaysSeen | server.py:70-73 | once seen alive, always seen |
| Server.Observed | server.py:67-81 | a round of pings keeps the dictionaries' keys |
| Server.ObservedPeer | server.py:67-81 | with distinct ids each peer's entry after the round is the result of its own ping |
| Server.ObservedUntouched | server.py:67-81 | ids not in the list are not touched |
| Server.Candidate | server.py:94-98 | the candidate is never above the server's id, and is the server's id or the id of a listed live peer |
| Server.CandidateIsLeastAlive | server.py:94-98 | the candidate is the least of the server's id and the live peers' ids |
| Server.BackupFollowsLowerPeer | server.py:92-98 | with a live lower peer, the candidate is below the server |
| Server.LeaderNotAbove | server.py:86-98 | when a lower peer is alive the leader is lower than the server |
| Server.PyIndex | server.py:100 | Python list indexing, negative indices included; None is the IndexError |
| Server.LeaderElection.constructor | server.py:46-55 | all peers down and never seen, state backup, no leader |
| Server.LeaderElection.Elect | server.py:65-100 | dictionaries updated by the pings; leader iff no lower peer is alive, else backup following the least live id; returns the leader's entry |
| Server.LeaderElection.PingPeers | server.py:67-81 | the first loop gives the Observed dictionaries |
| Server.LeaderElection.LeastLivePeer | server.py:94-98 | the second loop computes the candidate |
| Server.AckCount | server.py:128-145 | between 1 and 1 + the number of peers, and exactly 1 (the leader's own write) when no peer acknowledges |
| Server.AckCountBounds | server.py:128-145 | between 1 (the leader's own write) and 1 + number of peers |
| Server.AckCountSkipsDown | server.py:130-132 | a peer marked down never counts, whatever it would have answered |
| Server.AckCountAddsOne | server.py:128-145 | a peer not marked down adds exactly one to the count when it acknowledges |
| Server.ReplicatedIffLiveAck | server.py:128-145 | the count is at least 2 exactly when some peer not marked down acknowledged |
| Server.ChatService.constructor | server.py:111-115 | keeps the election and the peers |
| Server.ChatService.ReplicateToPeers | server.py:117-145 | the loop's count is the acknowledgement count, within its bounds |
| Server.ChatService.SaveGameState | server.py:147-159 | always success; replicated exactly when at least 2 copies were written, i.e. exactly when some peer not marked down acknowledged |
| Server.CheckVersion | server.py:179-185 | success exactly for version "1.0.0" |
| Server.CheckVersionMessages | server.py:179-185 | both answers mention "Version"; a mismatch names itself and both versions |
| Client.Highlighted | static/script.js:126-147 | the clicked container toggles the emoji; a new choice clears the other container; at most one selection survives |
| Client.HighlightTwice | static/script.js:126-147 | clicking a new emoji twice leaves nothing selected |
| Client.Page.constructor | static/script.js:13-18 | all four variables start null |
| Client.Page.HighlightEmoji | static/script.js:126-147 | the slots change as Highlighted says; the poll record is untouched |
| Client.Page.Poll | static/script.js:699-709 | redraw and clear both selections exactly when either JSON differs; both JSONs are recorded, so the same data again redraws nothing |
| Util.ContainsSplit | static/script.js:871 | `includes`: a string contains t exactly when it is some text, then t, then more text |
| Client.SessionId | static/script.js:863-864 | the URL parameter when truthy, else the stored id |
| Client.WithSession | static/script.js:866-873 | with a truthy id and no "session_id=" in the URL, append '&' or '?' and the id; otherwise keep the URL; with an id the result always carries it |
| Client.WithSessionIdempotent | static/script.js:866-873 | appending twice is appending once |
| Client.FetchWithSession | static/script.js:854-885 | the URL rule; the caller's method and body pass through; the headers are the caller's, with X-Session-Id set to a truthy session id and X-Username to a truthy username, and every other header and any preset value kept; credentials 'include' |
| Client.FetchWithoutOptions | static/script.js:854-885 | a call without options sends only X-Session-Id and X-Username, each exactly when its value is truthy, and no method or body |
| Client.RedirectUrl | static/script.js:925-930 | with a truthy session id a session_id parameter is present; without one the redirect is unchanged |
| Client.RedirectMatchesFetch | static/script.js:925-930 | the redirect rule equals the fetch rule |
| Client.Decimal | static/script.js:832 | a template literal writes a number as a non-empty string of digits |
| Client.ParseDecimal | static/script.js:830-832 | parseInt reads back the number a template literal wrote |
| Client.DigitRun | static/script.js:828 | the leading digit run, maximal |
| Client.DigitRunOf | static/script.js:828 | digits followed by a non-digit: the run is the digits |
| Client.CountRun | static/script.js:828 | a "(Ns)" at the start of a string has exactly the digit run after the '(' |
| Client.MatchHere | static/script.js:828 | a number is read exactly when the string starts with '(', one or more digits, 's' and ')', and it is the value of those digits |
| Client.FindSeconds | static/script.js:828 | a number found is read by a match at some position of the text |
| Client.NoMatchShift | static/script.js:828 | without a match at the first character, the match positions are those of the rest |
| Client.FindSecondsLeftmost | static/script.js:828 | nothing is found exactly when no position starts a match; otherwise the number is read at the leftmost match |
| Client.FindSecondsSkip | static/script.js:828 | the regex search skips text without '(' |
| Client.ReadCooldownLabel | static/script.js:822-832 | the seconds read from "Start New Game (Ns)" are N |
| Client.ReadCount | static/script.js:828-830 | "(Ns)" matches at its start and reads N |
| Client.NoParenInPrefix | static/script.js:822 | "Start New Game " has no '(' |
| Client.IdleLabelHasNoSeconds | static/script.js:828-829 | "Start New Game" has no count, so a tick leaves it alone |
| Client.IdleTick | static/script.js:828-839 | the idle button is a fixed point of the tick |
| Client.TickCountsDown | static/script.js:831-832 | a tick on N > 1 seconds shows N - 1 |
| Client.FinalTick | static/script.js:833-838 | a tick on N ≤ 1 enables the button, restores its label and clears the timer |
| Client.TickMonotone | static/script.js:826-840 | a tick never disables the button or starts a timer, and leaves a label without a count alone |
| Client.TicksAfter | static/script.js:826-840 | k ticks are one tick then k - 1 more |
| Client.LastTick | static/script.js:826-840 | after the enabling tick the button stays as it is |
| Client.FixedStays | static/script.js:826-840 | a state the tick leaves alone stays under any number of ticks |
| Client.CountdownShowsRemaining | static/script.js:826-840 | before n ticks the button is disabled and shows the seconds left |
| Client.CountdownEnds | static/script.js:826-840 | an n-second cooldown ends, enabled and idle, after n ticks and stays so |
| Client.RestartButton.constructor | static/script.js:848-849 | the page's first button state, assumed (it comes from the HTML): enabled, "Start New Game", `restartCooldownTimer` unset — the same state the no-cooldown branch sets |
| Client.RestartButton.Update | static/script.js:815-851 | a positive cooldown disables the button, labels it and has a timer running; otherwise enabled, idle, no timer |
| Client.RestartButton.OnTick | static/script.js:826-840 | the interval callback performs Tick |
| Client.VoteToast | static/script.js:496-509 | no timer and a confirm button exactly while votes are missing; otherwise a 3000 ms timer |

## Left out

- Randomness: `random.shuffle` and `random.randint` are inputs, and only
  their bounds are modelled. The tests asserting that two shuffles differ are
  not modelled.
- `sympy.GF` / `sympy.invert` are replaced by arithmetic mod 7 and a table
  of the six inverses in GF(7) (`Plane.Inverse`).
- The float part of `rotate` is not modelled: ±360/7 and `% 360` on the
  `rotation` field. Likewise the trigonometric layout in `arrangeEmoji`.
  `App.App.Rotate` models the index arithmetic only.
- App.App.Rotate: the rotated card replaces the top of player 0's pile in the
  model. In the source the emoji dicts are shared with `self.cards`, so the
  deck list changes too. The model does not capture this aliasing, so
  `HoldsDeck` is not stated after a rotation.
- GameLogic.SpotItGame.constructor: the string-to-int key conversion and the
  list-to-deque conversion of a loaded `cards_pile` are not modelled. A loaded
  state is given directly as piles and a centre. A new game requires at most
  57 names, since `cards[player_id]` fails beyond the deck.
- GameLogic.GenerateCards: the ghost point table is an output of the proof.
- App.App.Click: the None == None match (a request without an emoji on an
  empty slot) is modelled as written, i.e. it scores.
- App.CenterView: with an empty centre it requires a non-empty score list and
  a first top scorer whose index is within `names`, the two conditions under
  which `max` and `names[...]` raise in the source. A centre card needs
  neither.
- `json` load/save of `PersistentStore`, its lock and file name. The
  constructor starts from an empty table.
- Store.PersistentStore.JoinGame: an empty stored record is falsy in
  Python and would be refused. Records here always have their fields.
- Threads, locks, the `LeaderElection.start` loop and its sleep, gRPC
  channels, `ping_peer` and the replication stubs. Ping and RPC outcomes are
  inputs; an RPC error is a false acknowledgement.
- `server.py`'s own `PersistentStore`, `clear` and `HealthService`.
- `spotit_server.py` and `test.py` are not part of this model. They are
  gRPC glue over the store and game.
- Flask routing and `jsonify`, the DOM, SweetAlert, `setInterval` scheduling,
  sessionStorage writes and the restart dialog flow.
- Client.ParseDecimal: parseInt loses precision on digit strings beyond 2^53.
  The model reads unbounded integers.
- Client.RestartButton.Update: `cooldown_remaining` is an integer here. A
  fractional value is not modelled.
- Client.RestartButton.constructor: the page's HTML is not part of this
  model, so the first button state is assumed: enabled, "Start New Game",
  no timer.
- Client.Page.Poll: `JSON.stringify` is given as the two strings it produces.
- Client.FetchWithSession: the options are the method, the headers and the
  body, the only keys the calls pass. `console.log` and the `fetch` call
  itself are not modelled; the result is the request `fetch` is given.
- Server.LeaderElection.PingPeers: the loop updates copies of the two
  dictionaries and writes them back once after the loop. `elect` alone takes
  the lock; `replicate_to_peers` reads `peer_status` without it, so a
  concurrent replication can see a partly updated table. Threads are not
  modelled.
