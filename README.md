# mushijingi core in Dafny

This project models the rules core of mushijingi, a two-player online card game about
bugs ("mushi"). It covers:

- the server's game object (`Game`), which holds two players, the turn, the phase
  (draw, set, main, end), the winner and the last action, and dispatches player actions;
- the player object (`PlayerModel`), with its six card zones (deck, hand, field, food
  area, graveyard, territory) and its food;
- the card wrapper (`CardModel`) and its attack rule;
- the game manager, which stores games by their four-digit id and maps players to games;
- the card catalog service: look-up, filters, the catalog-aware deck validator and the
  random deck builder;
- the deck store's validator and its file-name sanitising;
- the server's input validators (deck, action, username, game id);
- the client's legality predicates (`useGame`), which decide which moves the user
  interface offers.

The modules are:

| module | file | what it holds |
|---|---|---|
| `Types` | types.dfy | the shared records: cards, field cards, actions, responses, player and game states |
| `Cards` | card.dfy | the card wrapper |
| `PlayerRules` | player_rules.dfy | each player operation as a function on a `PlayerState` value, with its laws |
| `Players` | player.dfy | the player class; each method is proved to make exactly the `PlayerRules` move |
| `GameRules` | game_rules.dfy | each game operation as a function on a `GameRecord` value |
| `Games` | game.dfy | the game class; each method is proved to make exactly the `GameRules` move |
| `GameLaws` | game_laws.dfy | what the game operations promise, and an invariant every action keeps |
| `GameManagers` | game_manager.dfy | the game manager class |
| `DeckRules` | deck_rules.dfy | the deck-size and name-copy rules shared by the three deck validators |
| `Validators` | validators.dfy | the server's input validators |
| `DeckService` | deck_service.dfy | the deck store's validator and deck file paths |
| `CardService` | card_service.dfy | the card catalog service |
| `UseGame` | use_game.dfy | the client's legality predicates |
| `CrossChecks` | cross_checks.dfy | how the client's predicates and the validators relate to the server's rules |

The stateful source classes are Dafny classes. Their fields are updated in place, and
every method's postcondition ties the new state to a value-level function of the old
state. That function's properties are then proved as lemmas (`PlayerRules`,
`GameLaws`).

The random inputs become parameters:

- The deck shuffle takes the sequence of random draws.
- The choice of the first player is a seat number.
- The new game id comes from a number in 1000..9999.
- The random deck builder takes the catalog in the shuffled order.

## Model

| member | source | states |
|---|---|---|
| `Cards.CardModel.GetAttack` | server/src/models/Card.ts:52-63 | a non-bug or a card without techniques attacks for 0; an index naming a technique gives that technique's attack (0 when it has none); an absent or out-of-range index falls back to the first technique |
| `Cards.CardModel.ToJSON` | server/src/models/Card.ts:68-81 | the serialised card keeps every field of the card except hitpoints, which is absent |
| `Cards.FromCard` | server/src/models/Card.ts:15-26 | wrapping a card copies every field except hitpoints |
| `Cards.ToJSONOfFromCard` | server/src/models/Card.ts:15-26 | serialising a freshly wrapped card gives back the card with its hitpoints dropped |
| `Cards.ExactlyOneCategory` | server/src/models/Card.ts:31-47 | exactly one of isBug, isEnhancement and isTechnique holds for every card |
| `PlayerRules.DrawFromDeck` | server/src/models/Player.ts:81-86 | an empty deck gives None and no change; otherwise the front card is returned and removed from the deck, and the other zones are unchanged |
| `PlayerRules.DrawCard` | server/src/models/Player.ts:68-75 | an empty deck gives None and no change; otherwise the front card moves to the end of the hand |
| `PlayerRules.PlayCard` | server/src/models/Player.ts:93-127 | a bad index or a cost above the food changes nothing and gives None; otherwise the food drops by the cost, the card leaves the hand, and a bug enters the field undamaged and unmarked or a technique goes to the graveyard |
| `PlayerRules.SetFood` | server/src/models/Player.ts:134-144 | a bad index changes nothing; otherwise exactly the chosen hand card moves to the end of the food area |
| `PlayerRules.UpdateFood` | server/src/models/Player.ts:149-151 | the food becomes the number of cards in the food area, and nothing else changes |
| `PlayerRules.Attack` | server/src/models/Player.ts:159-189 | an attack that is not allowed gives 0 and no change; otherwise only the attacker's flag is set, and the result is the attack of the chosen technique |
| `PlayerRules.ReceiveDamage` | server/src/models/Player.ts:197-230 | a bad index changes nothing; otherwise the damage is added, and the card is destroyed exactly when the total reaches its hitpoints (missing hitpoints count as 0); a destroyed card and its attachments go to the graveyard |
| `PlayerRules.ReceiveDamageKeepsCards` | server/src/models/Player.ts:197-230 | damage never gains or loses a card |
| `PlayerRules.EndTurn` | server/src/models/Player.ts:235-252 | every field card loses its attack flag and damage; the cards and the other zones stay |
| `PlayerRules.ResetDamageOnly` | server/src/models/Player.ts:257-266 | every field card's damage becomes 0 and its attack flag is kept |
| `PlayerRules.ResetAttackFlags` | server/src/models/Player.ts:271-280 | every field card's attack flag is cleared and its damage is kept |
| `PlayerRules.DrawFromDeckKeepsCards` | server/src/models/Player.ts:81-86 | taking the front card removes exactly that card from the player |
| `PlayerRules.DrawCardKeepsCards` | server/src/models/Player.ts:68-75 | drawing never gains or loses a card |
| `PlayerRules.PlayCardKeepsCards` | server/src/models/Player.ts:93-127 | a played bug or technique stays with the player; a played enhancement is the one card that leaves every zone |
| `PlayerRules.PlayedBugKept` | server/src/models/Player.ts:106-120 | a played bug moves from the hand to the end of the field |
| `PlayerRules.PlayedTechniqueKept` | server/src/models/Player.ts:121-124 | a played technique moves from the hand to the end of the graveyard |
| `PlayerRules.PlayedEnhancementLeaves` | server/src/models/Player.ts:93-127 | a played enhancement leaves the player's cards |
| `PlayerRules.SetFoodKeepsCards` | server/src/models/Player.ts:134-144 | setting food never gains or loses a card |
| `PlayerRules.AttackKeepsCards` | server/src/models/Player.ts:159-189 | attacking never gains or loses a card |
| `PlayerRules.SweepsKeepCards` | server/src/models/Player.ts:235-280 | the three field sweeps never gain or lose a card |
| `PlayerRules.Pick` | server/src/models/Player.ts:57-62 | the swap partner chosen at position i lies in 0..i |
| `PlayerRules.ShuffleFrom` | server/src/models/Player.ts:57-62 | the Fisher-Yates passes from position i down to 1 keep the length of the deck |
| `PlayerRules.ShuffleFromPermutes` | server/src/models/Player.ts:57-62 | the passes from i down to 1 only reorder the deck |
| `PlayerRules.Shuffle` | server/src/models/Player.ts:57-62 | a shuffle keeps the length of the deck and only reorders it: the same cards, each as often |
| `PlayerRules.DealTerritoryTakesFront` | server/src/models/Player.ts:37-42 | k territory passes move the first min(k, deck size) cards of the deck to the territory, in order |
| `PlayerRules.DrawTimesTakesFront` | server/src/models/Player.ts:45-47 | k draws move the first min(k, deck size) cards of the deck to the hand, in order |
| `PlayerRules.InitializeTakesFront` | server/src/models/Player.ts:32-48 | the opening deal puts the first six cards of the shuffled deck (or all of them) in the territory and the next four (or fewer) in the hand |
| `PlayerRules.InitializeDeals` | server/src/models/Player.ts:32-48 | from a deck of n >= 10 cards the opening deal leaves 6 cards in the territory, 4 in the hand and n - 10 in the deck, taken in order from the shuffled deck, and no card is gained or lost |
| `PlayerRules.InitializeKeepsCards` | server/src/models/Player.ts:32-48 | the opening deal never gains or loses a card, whatever the deck size, and the player keeps its id |
| `PlayerRules.AttackAtMostOnce` | server/src/models/Player.ts:159-189 | once an attack with a field card has gone through, any further attack with it gives 0 and changes nothing |
| `Players.PlayerModel.constructor` | server/src/models/Player.ts:16-27 | a new player holds only a copy of the given deck, has no food and is not ready |
| `Players.PlayerModel.SetReady` | server/src/models/Player.ts:50-52 | only the ready flag changes |
| `Players.PlayerModel.Initialize` | server/src/models/Player.ts:32-48 | the player ends in the state of the opening deal from its old state |
| `Players.PlayerModel.ShuffleDeck` | server/src/models/Player.ts:57-62 | the in-place Fisher-Yates loop leaves the deck equal to the shuffle of the old deck, a permutation of it |
| `Players.PlayerModel.DrawCard` | server/src/models/Player.ts:68-75 | the player makes the draw move and the drawn card is returned |
| `Players.PlayerModel.DrawCardFromDeck` | server/src/models/Player.ts:81-86 | the player loses the front card of the deck, which is returned |
| `Players.PlayerModel.PlayCard` | server/src/models/Player.ts:93-127 | the player makes the play move, and the played card is returned |
| `Players.PlayerModel.SetFood` | server/src/models/Player.ts:134-144 | the player makes the set-food move, and the card set is returned |
| `Players.PlayerModel.UpdateFood` | server/src/models/Player.ts:149-151 | the food becomes the size of the food area |
| `Players.PlayerModel.Attack` | server/src/models/Player.ts:159-189 | the player makes the attack move and its attack is returned |
| `Players.PlayerModel.ReceiveDamage` | server/src/models/Player.ts:197-230 | the player makes the damage move, and the result says whether the card was destroyed |
| `Players.PlayerModel.EndTurn` | server/src/models/Player.ts:235-252 | the loop over the field clears every attack flag and all damage |
| `Players.PlayerModel.ResetDamageOnly` | server/src/models/Player.ts:257-266 | the loop over the field clears the damage and keeps the flags |
| `Players.PlayerModel.ResetAttackFlags` | server/src/models/Player.ts:271-280 | the loop over the field clears the flags and keeps the damage |
| `GameRules.DecimalString` | server/src/models/Game.ts:27 | a number is rendered as decimal digits with no leading zero: the last digit is the number modulo 10 and the digits before it render the number divided by 10 |
| `GameRules.DecimalStringValue` | server/src/models/Game.ts:27 | reading the rendered digits back as a decimal number gives the number itself |
| `GameRules.NewGame` | server/src/models/Game.ts:25-34 | a new game has a four-digit decimal id whose value is the drawn number, no players, turn 1 in the draw phase, no winner and has not started or ended |
| `GameRules.AddPlayer` | server/src/models/Game.ts:39-46 | a player is seated exactly while fewer than two are seated and the game has not started; seating appends the player and changes nothing else, a refusal changes nothing, and no game ever holds more than two players |
| `GameRules.Start` | server/src/models/Game.ts:51-65 | a game starts exactly when two players are seated and it has not started; then the chosen seat moves first, the set phase begins, each player keeps its id and its cards (the opening deal only moves them between zones) and nothing else changes; otherwise nothing changes |
| `GameRules.NextPhase` | server/src/models/Game.ts:84-108 | the phases go draw, set, main, end and back to draw; each step keeps the other seat, the id, the winner and the started and ended flags; only the end step passes the turn, counting a new turn exactly when seat 0 is up again |
| `GameLaws.NextPhaseCycle` | server/src/models/Game.ts:84-108 | four phase steps from a draw phase hand the other seat its draw phase, with that seat's cards untouched |
| `GameRules.HandIndex` | server/src/models/Game.ts:160 | the first hand position whose card has the action's card id, or -1 when there is none |
| `GameRules.FieldIndex` | server/src/models/Game.ts:185 | the first field position whose card has the id, or -1 when there is none |
| `GameRules.HandlePlayCard` | server/src/models/Game.ts:153-173 | playing outside the main phase fails with INVALID_ACTION; a failure changes nothing; a success changes only the current seat and the recorded action |
| `GameRules.HandleAttack` | server/src/models/Game.ts:178-248 | attacking outside the main phase fails with INVALID_ACTION; an attack never changes the turn, the phase or the seating, and it ends a running game only as a win of the attacker |
| `GameRules.Strike` | server/src/models/Game.ts:205-248 | the strike never touches the attacker's seat, a failed strike changes nothing, and a strike that ends the game makes the attacker the winner |
| `GameRules.HandleSetFood` | server/src/models/Game.ts:253-274 | setting food outside the set phase fails with INVALID_ACTION; a failure changes nothing; a success records the action and enters the main phase without passing the turn or touching the other seat |
| `GameRules.HandleUseTechnique` | server/src/models/Game.ts:279-289 | a technique succeeds exactly in the main phase and then only records the action; otherwise it fails with INVALID_ACTION and nothing changes |
| `GameRules.CheckDeckOutWinner` | server/src/models/Game.ts:330-342 | the game ends and nothing but the winner changes; when the territories differ the winner is the seat with strictly more territory, and a tie leaves the winner as it was |
| `GameRules.TurnDraw` | server/src/models/Game.ts:301-311 | on seat 0's first turn nothing happens; otherwise the current player draws the front card of the deck, the other seat is untouched, and the game ends only when that deck is empty |
| `GameRules.HandleEndTurn` | server/src/models/Game.ts:294-315 | ending the turn always succeeds, passes the turn to the other seat, counts a new turn exactly when seat 0 is up again, enters the set phase, and leaves the player who ended the turn untouched |
| `GameRules.HandleSurrender` | server/src/models/Game.ts:320-325 | surrender always succeeds, ends the game and makes the opponent the winner; nothing else changes |
| `GameRules.ProcessAction` | server/src/models/Game.ts:113-148 | an ended game rejects every action with INVALID_ACTION, and otherwise an action by anyone but the current player is rejected with NOT_YOUR_TURN, neither changing anything; skipping the set phase and an unknown type never succeed; no action changes the seating, the id or whether the game started |
| `GameRules.ProcessActionAlone` | server/src/models/Game.ts:113-148 | with the creator seated alone in a game that has not ended, the call throws exactly when the turn index names the empty seat or the creator ends the turn (which has passed the turn by then); only a surrender by the creator succeeds, ending the game with no winner; every other action fails and changes nothing |
| `GameRules.View` | server/src/models/Game.ts:347-358 | the shared view carries every player's state and the current index, and names the winning player's state exactly when a winner is recorded |
| `GameRules.SeatOf` | server/src/models/Game.ts:361 | the first seat with the player id, or -1 when there is none |
| `GameRules.ViewFor` | server/src/models/Game.ts:360-411 | no view for an id that holds no seat; a view lists the viewer first and a seated player second, and carries the phase, turn and started flag but neither winner nor last action |
| `Games.Game.constructor` | server/src/models/Game.ts:25-34 | the new game is the value `GameRules.NewGame` |
| `Games.Game.AddPlayer` | server/src/models/Game.ts:39-46 | the player is appended exactly when fewer than two are seated and the game has not started; the result says whether it was |
| `Games.Game.Start` | server/src/models/Game.ts:51-65 | with two players seated, both make the opening deal, the chosen seat moves first and the set phase begins; otherwise nothing changes and the result is false |
| `Games.Game.GetCurrentPlayer` | server/src/models/Game.ts:70-72 | the player in the current seat |
| `Games.Game.GetOpponentPlayer` | server/src/models/Game.ts:77-79 | the player in the other seat, which is a different object from the current player |
| `Games.Game.NextPhase` | server/src/models/Game.ts:84-108 | the game makes the `GameRules.NextPhase` move |
| `Games.Game.EnterMainPhase` | server/src/models/Game.ts:89-93 | from the set phase, the main phase begins with the current player's food refreshed |
| `Games.Game.LeaveMainPhase` | server/src/models/Game.ts:94-98 | from the main phase, the end phase begins with the current player's field swept |
| `Games.Game.ProcessAction` | server/src/models/Game.ts:113-148 | with two seats the game and the response are exactly those of `GameRules.ProcessAction`; with the creator seated alone they are those of `GameRules.ProcessActionAlone`, None standing for the call throwing; the players are never replaced |
| `Games.Game.ProcessSeated` | server/src/models/Game.ts:113-148 | with two seats the game makes exactly the move of `GameRules.ProcessAction` and returns its response |
| `Games.Game.HandlePlayCard` | server/src/models/Game.ts:153-173 | the game makes the play-card move of the rules and gives its response |
| `Games.Game.PlayCardFound` | server/src/models/Game.ts:165-172 | with the card found in the hand, the game makes the play-card move of the rules |
| `Games.Game.HandleAttack` | server/src/models/Game.ts:178-248 | the game makes the attack move of the rules and gives its response |
| `Games.Game.AttackWith` | server/src/models/Game.ts:199-248 | the attacker is marked, then an attack with positive power strikes |
| `Games.Game.Strike` | server/src/models/Game.ts:205-248 | the game makes the strike move of the rules with the given power |
| `Games.Game.StrikeTarget` | server/src/models/Game.ts:208-224 | an attack on a named bug damages it, or fails with INVALID_TARGET when the opposing field lacks it |
| `Games.Game.StrikeDirect` | server/src/models/Game.ts:225-247 | a direct attack fails with INVALID_TARGET unless the opposing field is empty; it then takes the last territory card, or wins the game |
| `Games.Game.TakeTerritory` | server/src/models/Game.ts:232-233 | a direct attack on an empty field with territory left removes the last territory card |
| `Games.Game.HandleSetFood` | server/src/models/Game.ts:253-274 | the game makes the set-food move of the rules and gives its response |
| `Games.Game.SetFoodFound` | server/src/models/Game.ts:265-273 | with the card found in the hand, the card is set as food and the main phase begins |
| `Games.Game.HandleUseTechnique` | server/src/models/Game.ts:279-289 | the game makes the technique move of the rules and gives its response |
| `Games.Game.HandleEndTurn` | server/src/models/Game.ts:294-315 | the game makes the end-turn move of the rules |
| `Games.Game.DrawForTurn` | server/src/models/Game.ts:301-311 | the new current player draws, except on seat 0's first turn; an empty deck decides the game |
| `Games.Game.HandleSurrender` | server/src/models/Game.ts:320-325 | the game makes the surrender move of the rules |
| `Games.Game.CheckDeckOutWinner` | server/src/models/Game.ts:330-342 | the game ends; the player with strictly more territory wins, and a tie leaves the winner unchanged |
| `Games.Game.ToJSON` | server/src/models/Game.ts:347-358 | the serialised game is the view of the current state |
| `Games.Game.ToJSONForPlayer` | server/src/models/Game.ts:360-411 | the per-player view of the current state, or None where the server throws |
| `Games.SeatOfObject` | server/src/models/Game.ts:330-342 | the seat of a winner object is a position that holds it, and None means no seat does |
| `GameLaws.PhaseGates` | server/src/models/Game.ts:126-147 | playing, attacking or using a technique outside the main phase, and setting food outside the set phase, fail with INVALID_ACTION and no change; skipping the set phase and an unknown action type always fail |
| `GameLaws.FailureChangesOnlyTheAttacker` | server/src/models/Game.ts:113-248 | a rejected action changes nothing, except an attack that reached the attack step, which has marked its attacker |
| `GameLaws.PlayCardOutcome` | server/src/models/Game.ts:153-173 | CARD_NOT_FOUND exactly when no hand card has the id, INSUFFICIENT_FOOD exactly when the first such card costs more than the food; otherwise the player makes the play move, the action is recorded and the phase stays main |
| `GameLaws.SetFoodSuccess` | server/src/models/Game.ts:253-274 | a successful set-food moves exactly the chosen hand card to the food area, records the action, and enters the main phase with the food equal to the size of the food area |
| `GameLaws.AttackDamageIsRaw` | server/src/models/Game.ts:199-224 | a successful attack on a named bug deals exactly the raw attack of the chosen technique, changes nothing else on the defending side, and marks the attacker |
| `GameLaws.AttackerMarkedEvenOnFailure` | server/src/models/Game.ts:199-213 | an attack that reaches the attack step with an unmarked attacker marks it, even when the target then turns out to be invalid |
| `GameLaws.DirectAttack` | server/src/models/Game.ts:225-247 | a direct attack succeeds only against an empty field; it then removes exactly the last territory card, or, with no territory left, ends the game won by the attacker |
| `GameLaws.AttackedCardCannotAttack` | server/src/models/Game.ts:195-203 | a field card that has attacked cannot attack again: the attack fails with INVALID_ACTION and nothing changes |
| `GameLaws.EndTurnOutcome` | server/src/models/Game.ts:294-315 | ending a turn in any phase passes the turn to the other seat and enters the set phase; a new turn is counted exactly when seat 0 is up again; the ending player's flags and damage are not cleared; the new current player draws, and an empty deck ends the game |
| `GameLaws.SurrenderOutcome` | server/src/models/Game.ts:320-325 | surrender makes the other player the winner and ends the game, and nothing else changes |
| `GameLaws.ViewForPerspective` | server/src/models/Game.ts:360-411 | the per-player view exists exactly when the player holds a seat of a two-player game; it lists that player first, and its current index is 0 exactly when the viewer holds the current seat |
| `GameLaws.ViewForTurn` | server/src/models/Game.ts:360-411 | with distinct player ids, the viewer sees index 0 exactly on its own turn |
| `GameLaws.ActionIsStep` | server/src/models/Game.ts:113-148 | every action on a game that satisfies the invariant keeps the invariant and the id, does not lower the turn count, and changes each player only by a step that creates no card and resets no field card |
| `GameLaws.ProcessActionKeepsInv` | server/src/models/Game.ts:113-148 | every action keeps the running-game invariant (two seats, a valid current seat, a winner only in an ended game, food never negative), never lowers the turn count and never reopens an ended game |
| `GameLaws.NeverCleared` | server/src/models/Game.ts:113-148 | no action clears an attack flag or heals damage on either side: position by position, the field afterwards is the field before with every card's flag and damage kept, or with one card removed and the rest kept in order, or with one unmarked, undamaged bug appended |
| `GameLaws.ClearedIsReset` | server/src/models/Game.ts:113-148 | the no-reset relation compares position by position: a field of the same length in which some position lost its attack flag or some damage is never a no-reset step |
| `GameLaws.NoCardCreated` | server/src/models/Game.ts:113-148 | after any action each player holds a sub-multiset of the cards they held before |
| `GameManagers.Without` | server/src/models/GameManager.ts:79-92 | the list without every occurrence of the key: it keeps exactly the other keys and is no longer |
| `GameManagers.WithoutKeepsDistinct` | server/src/models/GameManager.ts:79-92 | removing a key from a list without repetitions leaves a list without repetitions |
| `GameManagers.GamesAt` | server/src/models/GameManager.ts:97-99 | the games stored under the keys, one per key, in key order |
| `GameManagers.JoinableOf` | server/src/models/GameManager.ts:104-107 | every listed game is one of the given games and joinable, every joinable given game is listed, and the list is no longer than the given one |
| `GameManagers.WithPlayerOf` | server/src/models/GameManager.ts:112-115 | every listed game is one of the given games and has a player with the id, every such given game is listed, and the list is no longer than the given one |
| `GameManagers.JoinableOfAppend` | server/src/models/GameManager.ts:104-107 | the joinable games of two runs one after the other are those of the first run followed by those of the second, so the listing keeps the order and the repeats of the given games |
| `GameManagers.WithPlayerOfAppend` | server/src/models/GameManager.ts:112-115 | the games with a player of the id of two runs one after the other are those of the first run followed by those of the second, so the listing keeps the order and the repeats of the given games |
| `GameManagers.GameManager.constructor` | server/src/models/GameManager.ts:13-16 | a new manager stores no games and maps no players |
| `GameManagers.GameManager.CreateGame` | server/src/models/GameManager.ts:21-25 | a fresh new game is stored under its own id, replacing any game stored there, and can be looked up by that id; the player map is unchanged |
| `GameManagers.GameManager.GetGame` | server/src/models/GameManager.ts:30-32 | the game stored under the id, or None when there is none |
| `GameManagers.GameManager.GetPlayerGame` | server/src/models/GameManager.ts:37-43 | a player mapped to a non-empty id that is still stored gets the game stored there; any game returned is that one; an unmapped player gets None |
| `GameManagers.GameManager.AddPlayerToGame` | server/src/models/GameManager.ts:48-62 | false with no change when no game has the id; otherwise a new player with the deck is offered to the game, and the player is mapped to the game exactly when it was seated |
| `GameManagers.GameManager.Seat` | server/src/models/GameManager.ts:54-55 | the new player object is offered to the stored game exactly as `Game.addPlayer` seats it, and the other stored games stay as they were |
| `GameManagers.GameManager.Record` | server/src/models/GameManager.ts:57-59 | the player id is mapped to the game id and nothing else changes |
| `GameManagers.GameManager.StartGame` | server/src/models/GameManager.ts:67-74 | false when no game has the id; otherwise the stored game makes its start move, and every other stored game, players included, keeps its state |
| `GameManagers.GameManager.EndGame` | server/src/models/GameManager.ts:79-92 | false with no change when no game has the id; otherwise the game is removed, and so is the mapping of each of its players |
| `GameManagers.GameManager.GetAllGames` | server/src/models/GameManager.ts:97-99 | every stored game exactly once, in the order its id was stored |
| `GameManagers.GameManager.GetJoinableGames` | server/src/models/GameManager.ts:104-107 | exactly the stored games that have not started and have a free seat |
| `GameManagers.GameManager.GetPlayerGames` | server/src/models/GameManager.ts:112-115 | exactly the stored games that have a player with the id |
| `DeckRules.FirstThirdFrom` | server/src/utils/validators.ts:13-22 | the first position at or after i where a name's count in the prefix reaches three, or None when there is none |
| `DeckRules.SizeAndNames` | server/src/utils/validators.ts:6-25 | a deck of the wrong size is rejected first, then the first name that appears a third time |
| `DeckRules.NameCountStep` | server/src/utils/validators.ts:14-17 | the count of a name in one more card of the deck grows by one exactly for that card's name |
| `DeckRules.NameCountAppend` | server/src/utils/validators.ts:14-17 | appending a card raises exactly the count of its name, by one |
| `DeckRules.NameCountPrefix` | server/src/utils/validators.ts:14-17 | a name's count in a prefix is at most its count in the deck |
| `DeckRules.ThirdOccurrence` | server/src/utils/validators.ts:13-22 | a name that appears more than twice reaches a count of three at some position |
| `DeckRules.FirstThirdMeaning` | server/src/utils/validators.ts:13-22 | the scan finds no name that passes two exactly when every name appears at most twice; a name it finds appears more than twice |
| `DeckRules.SizeAndNamesMeaning` | server/src/utils/validators.ts:6-25 | a deck is accepted exactly when it has 20 cards and no name appears more than twice; a rejected 20-card deck names a card that appears more than twice |
| `Validators.ValidateDeck` | server/src/utils/validators.ts:6-25 | the scan with the count map gives the rule's verdict: valid exactly when the deck is present, has 20 cards and holds no name more than twice |
| `Validators.ValidateAction` | server/src/utils/validators.ts:30-73 | valid exactly when the type is known, the player id is not empty, a card id is present where the type needs one and a technique index where the type needs one; an unknown type and an empty player id are reported first |
| `Validators.TrimStart` | server/src/utils/validators.ts:79 | the string without its leading white space: a suffix, all of whose removed characters are white space, that starts with a character that is not |
| `Validators.TrimEnd` | server/src/utils/validators.ts:79 | the string without its trailing white space: a prefix, all of whose removed characters are white space, that ends with a character that is not |
| `Validators.TrimEmptyIffBlank` | server/src/utils/validators.ts:79 | trimming leaves nothing exactly when the string is all white space |
| `Validators.ValidateUsername` | server/src/utils/validators.ts:78-92 | a rejection gives one of the three username reasons |
| `Validators.UsernameVerdict` | server/src/utils/validators.ts:78-92 | a name is accepted exactly when it is not all white space and has 2 to 20 characters; each rejection names the first rule it breaks |
| `Validators.ValidateGameId` | server/src/utils/validators.ts:97-108 | a rejection gives one of the two game id reasons |
| `Validators.GameIdVerdict` | server/src/utils/validators.ts:97-108 | an id is accepted exactly when it is four ASCII digits, and it is reported blank exactly when it is all white space |
| `DeckService.ValidateDeck` | server/src/services/DeckService.ts:236-253 | the scan that checks a count before raising it gives the same verdict as the other validators: valid exactly when the deck is present, has 20 cards and holds no name more than twice |
| `DeckService.Sanitize` | server/src/services/DeckService.ts:46 | each character is kept when it is an ASCII letter, a digit, `_` or `-`, and replaced by `_` otherwise; the length is unchanged |
| `DeckService.SanitizeFixesSafe` | server/src/services/DeckService.ts:46 | a safe name is its own sanitised form, and sanitising twice is sanitising once |
| `DeckService.DeckFileName` | server/src/services/DeckService.ts:54-55 | the sanitised deck name followed by `.json` |
| `DeckService.DeckFileStaysInUserDirectory` | server/src/services/DeckService.ts:44-56 | the deck file path is the base directory, then the sanitised user name unless it is empty (where `path.join` drops the segment), then the sanitised deck name with `.json`, which is `.json` alone for an empty deck name; neither added segment holds a `/`, and the file name's only `.` comes before `json` |
| `CardService.IdIndex` | server/src/services/CardService.ts:42-44 | the first catalog position with the id, or -1 when there is none |
| `CardService.GetCardById` | server/src/services/CardService.ts:42-44 | None exactly when no catalog card has the id; otherwise the first catalog card with that id |
| `CardService.KeptPositions` | server/src/services/CardService.ts:57-87 | the positions whose card passes the test: each a position of the run, strictly increasing, and every passing position among them |
| `CardService.Select` | server/src/services/CardService.ts:57-87 | the selected cards are the cards at the positions that pass the test, one for one and in increasing position: every passing card, as often and in the order the run holds it, and nothing else |
| `CardService.SelectAppend` | server/src/services/CardService.ts:57-87 | selecting from two runs one after the other keeps the order of both |
| `CardService.SelectMembers` | server/src/services/CardService.ts:57-87 | a card is selected exactly when it is in the run and passes the test |
| `CardService.SelectCounts` | server/src/services/CardService.ts:57-87 | a card that passes the test is selected exactly as often as the run holds it; any other card not at all |
| `CardService.FilterCardsByType` | server/src/services/CardService.ts:57-59 | exactly the catalog cards of the type, listed as `filter` lists them: the cards at the passing positions, in catalog order and with their repeats |
| `CardService.FilterCardsByAttribute` | server/src/services/CardService.ts:64-66 | exactly the catalog cards with the attribute, listed as `filter` lists them: the cards at the passing positions, in catalog order and with their repeats |
| `CardService.FilterCardsByCost` | server/src/services/CardService.ts:71-73 | exactly the catalog cards whose cost lies between the bounds, both included, in catalog order and with their repeats; an empty range gives none |
| `CardService.FilterCardsByRarity` | server/src/services/CardService.ts:78-80 | exactly the catalog cards of the rarity, listed as `filter` lists them: the cards at the passing positions, in catalog order and with their repeats |
| `CardService.FilterCardsBySet` | server/src/services/CardService.ts:85-87 | exactly the catalog cards of the set, listed as `filter` lists them: the cards at the passing positions, in catalog order and with their repeats |
| `CardService.FirstUnknownFrom` | server/src/services/CardService.ts:109-114 | the first deck position at or after i whose id the catalog lacks, or None when every one is known |
| `CardService.ValidateDeck` | server/src/services/CardService.ts:92-117 | size, then names, then catalog membership: valid exactly when the deck has 20 cards, holds no name more than twice, and every card id is in the catalog |
| `CardService.TwoCopies` | server/src/services/CardService.ts:122-159 | a card held twice sits at two different positions |
| `CardService.PermutationKeepsUniqueIds` | server/src/services/CardService.ts:123 | reordering a run of cards with distinct ids keeps the ids distinct |
| `CardService.Front` | server/src/services/CardService.ts:126 | the first twenty cards of the order, or all of them when there are fewer: a prefix of the order |
| `CardService.RandomDeckMeaning` | server/src/services/CardService.ts:122-159 | the built deck starts with the cards the front pass kept, has at most 20 cards, all from the catalog, no name more than twice, distinct ids when the catalog has them, and when short leaves no catalog card it could still take |
| `CardService.KeptFront` | server/src/services/CardService.ts:132-142 | the front pass over the first k cards keeps at most k cards |
| `CardService.KeptFrontMeaning` | server/src/services/CardService.ts:132-142 | the cards the front pass keeps come from the cards it has seen and hold no name more than twice |
| `CardService.KeptFrontSkips` | server/src/services/CardService.ts:132-142 | every card the front pass left out had two of its name kept |
| `CardService.KeptFrontKeepsIds` | server/src/services/CardService.ts:132-142 | the front pass over cards with distinct ids keeps them distinct |
| `CardService.FilledExtends` | server/src/services/CardService.ts:145-156 | the second pass only appends to the deck and stops at 20 cards |
| `CardService.FilledKeeps` | server/src/services/CardService.ts:145-156 | the second pass keeps the name limit and distinct ids, and adds only cards of the order |
| `CardService.FilledIsMaximal` | server/src/services/CardService.ts:145-156 | a deck the second pass leaves short has no eligible card left in the order: each remaining card has its id in the deck or two of its name there |
| `CardService.GenerateRandomDeck` | server/src/services/CardService.ts:122-159 | the deck is the one the two passes build from the order: at most 20 cards, each from the catalog, no name more than twice, no id twice when the catalog's ids are distinct; a short deck has left out no catalog card it could still take |
| `CardService.KeepFromFront` | server/src/services/CardService.ts:129-142 | the loop with its set of kept names keeps exactly the cards of the front pass: each card of the selection in turn while fewer than two of its name are kept; distinct ids stay distinct |
| `CardService.FillUp` | server/src/services/CardService.ts:145-156 | the loop builds exactly the deck of the second pass from the start deck |
| `CardService.KeepsCopies` | server/src/services/CardService.ts:132-135 | adding a card of a name held fewer than twice keeps the name limit |
| `CardService.KeepsIds` | server/src/services/CardService.ts:132-135 | keeping the next card of a run with distinct ids keeps the ids distinct |
| `CardService.NewIdKeepsIds` | server/src/services/CardService.ts:146-155 | adding a card whose id is not in the deck keeps the ids distinct |
| `UseGame.FindSeat` | client/src/hooks/useGame.ts:44-45 | the first player whose id matches (or differs, for the opponent), or -1 when there is none |
| `UseGame.GetPlayerPerspective` | client/src/hooks/useGame.ts:39-48 | `me` is the first player with the viewer's id and `opponent` the first with another id, as `find` returns them; each is present whenever such a player exists, and both are absent without a game state |
| `UseGame.GetValidTargets` | client/src/hooks/useGame.ts:124-145 | nothing when the attacker cannot attack or there is no opponent; otherwise exactly the opposing field, and the player can be attacked exactly when that field is empty |
| `UseGame.GetTechniqueInfo` | client/src/hooks/useGame.ts:173-189 | present exactly when the index names a technique; then the technique's name, its attack or 0, and its effect or "" |
| `UseGame.GatesNeedTurn` | client/src/hooks/useGame.ts:53-168 | every client gate needs the viewer's turn; the set-phase gates and the main-phase gates exclude each other, and setting food and skipping the set phase are offered together |
| `CrossChecks.IsMyTurnOnBothViews` | client/src/hooks/useGame.ts:53-56 | whose turn it is reads the same on the shared view and on the viewer's own view, and it is the viewer's turn exactly when the viewer holds the current seat |
| `CrossChecks.PlayCardGateAgrees` | client/src/hooks/useGame.ts:61-72 | for a card the current player holds, the client allows playing it exactly when the server accepts it |
| `CrossChecks.SetFoodGateAgrees` | client/src/hooks/useGame.ts:77-82 | for a card the current player holds, the client allows setting it as food exactly when the server accepts it |
| `CrossChecks.EndTurnGateAgrees` | client/src/hooks/useGame.ts:114-119 | in a game that has not ended, the client allows ending the turn exactly when the server accepts it; an ended game rejects it |
| `CrossChecks.AttackAcceptedWasOffered` | client/src/hooks/useGame.ts:150-168 | an attack the server accepts used an attacker and a technique the client would have offered |
| `CrossChecks.SkipSetPhaseOfferedButRejected` | client/src/hooks/useGame.ts:87-92 | the client offers skipping in the viewer's set phase and the validator accepts it, but the server rejects every skip and changes nothing |
| `CrossChecks.UnknownTypeRejected` | server/src/utils/validators.ts:30-34 | an action type the validator does not know is rejected by the server too, with no change |
| `CrossChecks.NewGameIdsAreValid` | server/src/models/Game.ts:25-34 | every id a new game receives passes the game id validator |
| `CrossChecks.DeckValidatorsAgree` | server/src/services/CardService.ts:92-117 | a deck the catalog-aware validator accepts is accepted by the other validators, and on a deck of catalog cards all of them give the same verdict |

## Left out

- Socket and HTTP handling, the Express app, the React components and everything asynchronous are not modelled. Neither is file I/O (saving, loading, listing, renaming and deleting decks), nor console logging.
- `CardService.loadCards` and `getAllCards`: reading the catalog from a JSON file is I/O. The catalog is a parameter of every catalog operation.
- `searchCardsByName`: it depends on locale-dependent lower-casing, which strings in this model do not have.
- Randomness:
  - `Math.random` in the shuffle, the choice of the first player, the game id and the random deck's sort become parameters.
  - `GenerateRandomDeck` takes any order of the catalog (a permutation of it), not only those the comparator-based sort can produce.
- Texts: error and validation messages are not modelled. A `Reason` value stands for each message.
- Games without players: `GameRules.ProcessAction`, `Games.Game.ProcessSeated` and the handlers of both modules require two seats, and `Games.Game.ProcessAction` takes one or two (one seat is `GameRules.ProcessActionAlone`). An action on a game with no player is not modelled, because the socket handler (server/src/socket/handlers.ts:216-246) only passes on an action of a player seated in that game.
- `Games.Game.AddPlayer` requires a player object not already seated. The manager always passes a freshly created player.
- The game manager carries a ghost map `owner` from each seated player object to the id of the game it was created to join. The source has no such field; the manager's well-formedness uses it to state that two stored games never share a player object, which holds because `addPlayerToGame` creates a new player for every join.
- `Games.Game.ToJSON` and `Games.Game.ToJSONForPlayer` require the game's well-formedness predicate, which every method keeps.
- Helper methods decompose source methods at their branches, so that each can be proved in small steps. They are `EnterMainPhase`, `LeaveMainPhase`, `PlayCardFound`, `AttackWith`, `Strike`, `StrikeTarget`, `StrikeDirect`, `TakeTerritory`, `SetFoodFound`, `DrawForTurn` and `ProcessSeated` in `Games.Game`, `Seat` and `Record` in `GameManagers.GameManager`, and `KeepFromFront` and `FillUp` in `CardService`.
- `Games.Game.SetFoodFound`: the failure branch after `setFood` (Game.ts:267-269) cannot be reached once the card was found in the hand, so it is proved dead rather than modelled.
- Character counts:
  - String lengths (username limits) and sanitising count Unicode code points, where JavaScript counts UTF-16 code units.
  - A character outside the Basic Multilingual Plane therefore counts once here and twice there. It is replaced by one `_` here and by two there.
- `DeckService.DeckFileStaysInUserDirectory`: `path.join` is modelled as concatenation with `/`, dropping an empty segment as `path.join` does (an empty user name). That is exact when the base directory is already normal (no trailing `/`, no `.` or `..` segment), because no segment it adds can contain `/` or be `.` or `..`. A base directory that itself needs normalising is not modelled.
- Filter parameters are typed: card type and attribute are enumerations. The source accepts any string, and a string naming no type or attribute matches no card.
- Field cards are records copied by value. The source's field card objects are shared by reference between the zones and the serialised views, but nothing in the core mutates a serialised view.
- Map order: JavaScript `Map` iteration order is modelled by the `order` field of the game manager. Re-creating a game under an existing id keeps its first position, as `Map.set` does.
- `UseGame` predicates see only what the server sends. The client does not see whether the game has ended, so the agreement lemmas assume a game that has not ended.
- `CrossChecks.PlayCardGateAgrees` assumes the two players have different ids. With equal ids the client's `find` would pick the first seat.
- An absent technique index and an explicit `null` index are not distinguished. Both are `None`.
- Enhancement effects and technique effects are not modelled. The source leaves them unimplemented: a played enhancement goes to no zone, and a technique only records the action.
