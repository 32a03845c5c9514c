/** The turn and phase machine of server/src/models/Game.ts stated on values. The Game
    class in module Games is proved to make exactly these moves on its fields and on
    its two PlayerModel objects. */
module GameRules {
  import opened Types
  import PlayerRules
  import Cards

  /** A game with its players as values. `winner` is the index of the winning player. */
  datatype GameRecord = GameRecord(
    id: string,
    players: seq<PlayerState>,
    currentPlayerIndex: int,
    phase: Phase,
    turn: int,
    winner: Option<nat>,
    lastAction: Option<Action>,
    started: bool,
    ended: bool)

  /** Two players are seated and the turn belongs to one of them. */
  predicate Seated(g: GameRecord)
  {
    |g.players| == 2 && 0 <= g.currentPlayerIndex < 2
  }

  /** The index of the other player. */
  function Other(i: int): int { (i + 1) % 2 }

  function Current(g: GameRecord): PlayerState
    requires Seated(g)
  {
    g.players[g.currentPlayerIndex]
  }

  function Opponent(g: GameRecord): PlayerState
    requires Seated(g)
  {
    g.players[Other(g.currentPlayerIndex)]
  }

  /** The game with player k replaced. */
  function WithPlayer(g: GameRecord, k: int, p: PlayerState): GameRecord
    requires 0 <= k < |g.players|
  {
    g.(players := g.players[k := p])
  }

  // ---------------------------------------------------------------------------
  // Creation, seating and start

  /** The decimal digits of a natural number, most significant first, with no leading
      zero. */
  function DecimalString(n: nat): (s: string)
    ensures |s| >= 1
    ensures forall k :: 0 <= k < |s| ==> '0' <= s[k] <= '9'
    ensures s[|s| - 1] == ((n % 10) + 48) as char
    ensures n < 10 ==> |s| == 1
    ensures n >= 10 ==> s[..|s| - 1] == DecimalString(n / 10)
    ensures s[0] == '0' ==> n == 0
  {
    if n < 10 then [(n + 48) as char]
    else DecimalString(n / 10) + [((n % 10) + 48) as char]
  }

  /** The number a string of decimal digits denotes, most significant first. */
  function DigitsValue(s: string): int
  {
    if s == [] then 0 else DigitsValue(s[..|s| - 1]) * 10 + (s[|s| - 1] as int - 48)
  }

  /** Reading the digits back gives the number: the rendering loses nothing. */
  lemma {:induction false} DecimalStringValue(n: nat)
    ensures DigitsValue(DecimalString(n)) == n
  {
    var s := DecimalString(n);
    if n >= 10 {
      DecimalStringValue(n / 10);
      assert DigitsValue(s) == DigitsValue(DecimalString(n / 10)) * 10 + n % 10;
    }
  }

  /** A new game: no players, first player's draw phase of turn 1, not started. */
  function NewGame(idNumber: int): (g: GameRecord)
    requires 1000 <= idNumber <= 9999
    ensures g.id == DecimalString(idNumber) && |g.id| == 4 && DigitsValue(g.id) == idNumber
    ensures g.players == [] && g.currentPlayerIndex == 0 && g.turn == 1 && g.phase == DrawPhase
    ensures !g.started && !g.ended && g.winner.None? && g.lastAction.None?
  {
    assert |DecimalString(idNumber / 10 / 10 / 10)| == 1;
    assert |DecimalString(idNumber / 10 / 10)| == 2;
    assert |DecimalString(idNumber / 10)| == 3;
    DecimalStringValue(idNumber);
    GameRecord(DecimalString(idNumber), [], 0, DrawPhase, 1, None, None, false, false)
  }

  /** Seats a player unless two are seated or the game has started. */
  function AddPlayer(g: GameRecord, p: PlayerState): (r: (GameRecord, bool))
    ensures r.1 <==> |g.players| < 2 && !g.started
    ensures r.1 ==> r.0 == g.(players := g.players + [p])
    ensures !r.1 ==> r.0 == g
    ensures |g.players| <= 2 ==> |r.0.players| <= 2
  {
    if |g.players| >= 2 || g.started then (g, false)
    else (g.(players := g.players + [p]), true)
  }

  /** Starts a game of exactly two players that has not started: each player makes the
      opening deal (from its own random draws), `first` moves first, and the game
      enters the set phase. */
  function Start(g: GameRecord, first: nat, c0: seq<nat>, c1: seq<nat>): (r: (GameRecord, bool))
    requires first <= 1
    ensures r.1 <==> |g.players| == 2 && !g.started
    ensures !r.1 ==> r.0 == g
    ensures r.1 ==> && Seated(r.0) && r.0.started && r.0.phase == SetPhase && r.0.currentPlayerIndex == first
                    && r.0.(players := g.players, currentPlayerIndex := g.currentPlayerIndex,
                            started := g.started, phase := g.phase) == g
                    && r.0.players[0].id == g.players[0].id && r.0.players[1].id == g.players[1].id
                    && PlayerRules.AllCards(r.0.players[0]) == PlayerRules.AllCards(g.players[0])
                    && PlayerRules.AllCards(r.0.players[1]) == PlayerRules.AllCards(g.players[1])
  {
    if |g.players| != 2 || g.started then (g, false)
    else
      PlayerRules.InitializeKeepsCards(g.players[0], c0);
      PlayerRules.InitializeKeepsCards(g.players[1], c1);
      (g.(players := [PlayerRules.Initialize(g.players[0], c0), PlayerRules.Initialize(g.players[1], c1)],
          currentPlayerIndex := first, started := true, phase := SetPhase), true)
  }

  // ---------------------------------------------------------------------------
  // Phases

  /** Advances the phase: draw to set; set to main, refreshing the current player's
      food; main to end, clearing the current player's field; end to the other
      player's draw phase, counting a new turn when the first seat is up again. */
  function NextPhase(g: GameRecord): (r: GameRecord)
    requires Seated(g)
    ensures Seated(r)
    ensures r.phase == (match g.phase
                        case DrawPhase => SetPhase case SetPhase => MainPhase
                        case MainPhase => EndPhase case EndPhase => DrawPhase)
    ensures r.players[Other(g.currentPlayerIndex)] == g.players[Other(g.currentPlayerIndex)]
    ensures r.id == g.id && r.winner == g.winner && r.started == g.started && r.ended == g.ended
    ensures g.phase != EndPhase ==> r.currentPlayerIndex == g.currentPlayerIndex && r.turn == g.turn
    ensures g.phase == EndPhase ==>
              && r.players == g.players && r.currentPlayerIndex == Other(g.currentPlayerIndex)
              && r.turn == (if r.currentPlayerIndex == 0 then g.turn + 1 else g.turn)
  {
    var i := g.currentPlayerIndex;
    match g.phase
    case DrawPhase => g.(phase := SetPhase)
    case SetPhase => WithPlayer(g, i, PlayerRules.UpdateFood(Current(g))).(phase := MainPhase)
    case MainPhase => WithPlayer(g, i, PlayerRules.EndTurn(Current(g))).(phase := EndPhase)
    case EndPhase =>
      var n := Other(i);
      g.(currentPlayerIndex := n, phase := DrawPhase, turn := if n == 0 then g.turn + 1 else g.turn)
  }

  // ---------------------------------------------------------------------------
  // Lookups by card id

  /** The first hand position holding a card with the given id, or -1. */
  function HandIndex(hand: seq<Card>, id: Option<string>): (k: int)
    ensures -1 <= k < |hand|
    ensures k == -1 <==> forall j :: 0 <= j < |hand| ==> Some(hand[j].id) != id
    ensures k >= 0 ==> Some(hand[k].id) == id && forall j :: 0 <= j < k ==> Some(hand[j].id) != id
  {
    if hand == [] then -1
    else if Some(hand[0].id) == id then 0
    else
      var k := HandIndex(hand[1..], id);
      if k == -1 then -1 else k + 1
  }

  /** The first field position holding a bug with the given id, or -1. */
  function FieldIndex(field: seq<FieldCard>, id: Option<string>): (k: int)
    ensures -1 <= k < |field|
    ensures k == -1 <==> forall j :: 0 <= j < |field| ==> Some(field[j].card.id) != id
    ensures k >= 0 ==> Some(field[k].card.id) == id && forall j :: 0 <= j < k ==> Some(field[j].card.id) != id
  {
    if field == [] then -1
    else if Some(field[0].card.id) == id then 0
    else
      var k := FieldIndex(field[1..], id);
      if k == -1 then -1 else k + 1
  }

  // ---------------------------------------------------------------------------
  // Action handlers

  /** Playing a card: only in the main phase; a success changes only the current
      seat and the recorded action, and a failure changes nothing. */
  function HandlePlayCard(g: GameRecord, a: Action): (r: (GameRecord, Response))
    requires Seated(g)
    ensures g.phase != MainPhase ==> r == (g, Fail(InvalidAction))
    ensures !r.1.success ==> r.0 == g
    ensures r.1.success ==> && r.1 == Ok() && Seated(r.0) && r.0.lastAction == Some(a)
                            && r.0.players[Other(g.currentPlayerIndex)] == Opponent(g)
                            && r.0.(players := g.players, lastAction := g.lastAction) == g
  {
    if g.phase != MainPhase then (g, Fail(InvalidAction))
    else
      var p := Current(g);
      var k := HandIndex(p.hand, a.cardId);
      if k == -1 then (g, Fail(CardNotFound))
      else
        var (q, played) := PlayerRules.PlayCard(p, k);
        if played.None? then (g, Fail(InsufficientFood))
        else (WithPlayer(g, g.currentPlayerIndex, q).(lastAction := Some(a)), Ok())
  }

  /** The technique an attack uses: the one named by the action, else the first. */
  function TechniqueChoice(a: Action): int
  {
    match a.techniqueIndex
    case Some(t) => t
    case None => 0
  }

  /** An attack. The attacker is marked before the target is checked, so an attack
      that fails after that point still uses up the attacker. */
  function HandleAttack(g: GameRecord, a: Action): (r: (GameRecord, Response))
    requires Seated(g)
    ensures g.phase != MainPhase ==> r == (g, Fail(InvalidAction))
    ensures && Seated(r.0) && r.0.id == g.id && r.0.currentPlayerIndex == g.currentPlayerIndex
            && r.0.phase == g.phase && r.0.turn == g.turn && r.0.started == g.started
    ensures r.0.ended && !g.ended ==> r.1.success && r.0.winner == Some(g.currentPlayerIndex)
    ensures !r.0.ended ==> r.0.winner == g.winner
  {
    if g.phase != MainPhase then (g, Fail(InvalidAction))
    else
      var i := g.currentPlayerIndex;
      var p := Current(g);
      var ai := FieldIndex(p.field, a.cardId);
      if ai == -1 then (g, Fail(CardNotFound))
      else
        var ti := TechniqueChoice(a);
        var attacker := p.field[ai];
        if attacker.card.techniques.None? || ti >= |attacker.card.techniques.value| || ti < 0 then
          (g, Fail(InvalidAction))
        else
          var (p1, power) := PlayerRules.Attack(p, ai, ti);
          var g1 := WithPlayer(g, i, p1);
          if power <= 0 then (g1, Fail(InvalidAction))
          else Strike(g1, a, power, ti)
  }

  /** The second half of an attack, after the attacker is marked. A named target takes
      the raw technique attack as damage; with no target, an empty opposing field lets
      the attack remove the last territory card, or win the game when there is none. */
  function Strike(g: GameRecord, a: Action, power: int, ti: int): (r: (GameRecord, Response))
    requires Seated(g)
    ensures && Seated(r.0) && r.0.id == g.id && r.0.currentPlayerIndex == g.currentPlayerIndex
            && r.0.phase == g.phase && r.0.turn == g.turn && r.0.started == g.started
    ensures r.0.players[g.currentPlayerIndex] == g.players[g.currentPlayerIndex]
    ensures !r.1.success ==> r.0 == g
    ensures r.0.ended && !g.ended ==> r.0.winner == Some(g.currentPlayerIndex)
    ensures !r.0.ended ==> r.0.winner == g.winner
  {
    assert g.currentPlayerIndex == 0 || g.currentPlayerIndex == 1;
    var i := g.currentPlayerIndex;
    var o := Opponent(g);
    var recorded := Some(a.(actionType := Attack, techniqueIndex := Some(ti)));
    if Truthy(a.targetId) then
      var di := FieldIndex(o.field, a.targetId);
      if di == -1 then (g, Fail(InvalidTarget))
      else
        var (o1, _) := PlayerRules.ReceiveDamage(o, di, power);
        (WithPlayer(g, Other(i), o1).(lastAction := recorded), Ok())
    else if |o.field| > 0 then (g, Fail(InvalidTarget))
    else if |o.territory| > 0 then
      (WithPlayer(g, Other(i), o.(territory := o.territory[..|o.territory| - 1])).(lastAction := recorded), Ok())
    else
      (g.(winner := Some(i), ended := true, lastAction := recorded), Ok())
  }

  /** Setting food moves the card and then moves on to the main phase. */
  function HandleSetFood(g: GameRecord, a: Action): (r: (GameRecord, Response))
    requires Seated(g)
    ensures g.phase != SetPhase ==> r == (g, Fail(InvalidAction))
    ensures !r.1.success ==> r.0 == g
    ensures r.1.success ==> && r.1 == Ok() && Seated(r.0) && r.0.phase == MainPhase && r.0.lastAction == Some(a)
                            && r.0.currentPlayerIndex == g.currentPlayerIndex
                            && r.0.players[Other(g.currentPlayerIndex)] == Opponent(g)
  {
    if g.phase != SetPhase then (g, Fail(InvalidAction))
    else
      var p := Current(g);
      var k := HandIndex(p.hand, a.cardId);
      if k == -1 then (g, Fail(CardNotFound))
      else
        var (q, setCard) := PlayerRules.SetFood(p, k);
        if setCard.None? then (g, Fail(InvalidAction))
        else (NextPhase(WithPlayer(g, g.currentPlayerIndex, q).(lastAction := Some(a))), Ok())
  }

  /** A technique has no effect beyond being recorded. */
  function HandleUseTechnique(g: GameRecord, a: Action): (r: (GameRecord, Response))
    requires Seated(g)
    ensures r.1.success <==> g.phase == MainPhase
    ensures r.1.success ==> r == (g.(lastAction := Some(a)), Ok())
    ensures !r.1.success ==> r == (g, Fail(InvalidAction))
  {
    if g.phase != MainPhase then (g, Fail(InvalidAction))
    else (g.(lastAction := Some(a)), Ok())
  }

  /** When a draw finds an empty deck the game ends; the player with strictly more
      territory wins, and on a tie the winner is left as it was. */
  function CheckDeckOutWinner(g: GameRecord): (r: GameRecord)
    requires |g.players| == 2
    ensures r.ended && r.(winner := g.winner, ended := g.ended) == g
    ensures |g.players[0].territory| == |g.players[1].territory| ==> r.winner == g.winner
    ensures |g.players[0].territory| != |g.players[1].territory| ==>
              && r.winner.Some? && r.winner.value <= 1
              && |g.players[r.winner.value].territory| > |g.players[1 - r.winner.value].territory|
  {
    var t0 := |g.players[0].territory|;
    var t1 := |g.players[1].territory|;
    g.(winner := if t0 > t1 then Some(0) else if t1 > t0 then Some(1) else g.winner, ended := true)
  }

  /** The draw at the start of a turn: the current player draws, except on the first
      seat's first turn, and a draw from an empty deck ends the game. */
  function TurnDraw(g: GameRecord): (r: GameRecord)
    requires Seated(g)
    ensures && Seated(r) && r.id == g.id && r.currentPlayerIndex == g.currentPlayerIndex && r.phase == g.phase
            && r.turn == g.turn && r.lastAction == g.lastAction && r.started == g.started
    ensures r.players[Other(g.currentPlayerIndex)] == Opponent(g)
    ensures g.turn == 1 && g.currentPlayerIndex == 0 ==> r == g
    ensures !(g.turn == 1 && g.currentPlayerIndex == 0) && Current(g).deck != [] ==>
              r == WithPlayer(g, g.currentPlayerIndex,
                              Current(g).(deck := Current(g).deck[1..], hand := Current(g).hand + [Current(g).deck[0]]))
    ensures r.ended != g.ended ==> Current(g).deck == [] && r.players == g.players
  {
    if !(g.turn == 1 && g.currentPlayerIndex == 0) then
      var (q, drawn) := PlayerRules.DrawCard(Current(g));
      var g' := WithPlayer(g, g.currentPlayerIndex, q);
      if drawn.None? then CheckDeckOutWinner(g') else g'
    else g
  }

  /** Ending a turn: the phase is set to end, the turn passes, the new current player
      draws, and the phase moves on from draw to set. */
  function HandleEndTurn(g: GameRecord): (r: (GameRecord, Response))
    requires Seated(g)
    ensures r.1 == Ok() && Seated(r.0) && r.0.phase == SetPhase
    ensures r.0.currentPlayerIndex == Other(g.currentPlayerIndex)
    ensures r.0.turn == (if Other(g.currentPlayerIndex) == 0 then g.turn + 1 else g.turn)
    ensures r.0.players[g.currentPlayerIndex] == Current(g)
  {
    (NextPhase(TurnDraw(NextPhase(g.(phase := EndPhase)))), Ok())
  }

  /** Surrender: the opponent wins and the game ends; nothing else changes. */
  function HandleSurrender(g: GameRecord): (r: (GameRecord, Response))
    requires Seated(g)
    ensures r.1 == Ok() && r.0.ended && View(r.0).winner == Some(Opponent(g))
    ensures r.0.(winner := g.winner, ended := g.ended) == g
  {
    (g.(winner := Some(Other(g.currentPlayerIndex)), ended := true), Ok())
  }

  /** Processes an action: an ended game rejects everything, an action of the player
      whose turn it is not is rejected, and the rest is dispatched on the action type;
      skipping the set phase has no handler. */
  function ProcessAction(g: GameRecord, a: Action): (r: (GameRecord, Response))
    requires Seated(g)
    ensures g.ended ==> r == (g, Fail(InvalidAction))
    ensures !g.ended && a.playerId != Current(g).id ==> r == (g, Fail(NotYourTurn))
    ensures r.1.success ==> !g.ended && a.playerId == Current(g).id && a.actionType !in {SkipSetPhase, Unrecognized}
    ensures Seated(r.0) && r.0.id == g.id && r.0.started == g.started
  {
    if g.ended then (g, Fail(InvalidAction))
    else if a.playerId != Current(g).id then (g, Fail(NotYourTurn))
    else
      match a.actionType
      case PlayCard => HandlePlayCard(g, a)
      case Attack => HandleAttack(g, a)
      case SetFood => HandleSetFood(g, a)
      case UseTechnique => HandleUseTechnique(g, a)
      case EndTurn => HandleEndTurn(g)
      case Surrender => HandleSurrender(g)
      case SkipSetPhase => (g, Fail(InvalidAction))
      case Unrecognized => (g, Fail(InvalidAction))
  }

  /** A game with one seat: it has not started, so it is in its draw phase. */
  predicate LoneSeat(g: GameRecord)
  {
    |g.players| == 1 && 0 <= g.currentPlayerIndex < 2 && g.phase == DrawPhase
  }

  /** processAction on a game whose creator sits alone. None stands for the call
      throwing: a turn index on the empty seat has no player to read the id of, and
      ending the turn hands it to the empty seat, whose draw then fails with the turn
      already passed. Every other action is rejected by the draw-phase gates, except
      surrender, which ends the game with no winner since the opponent seat is empty. */
  function ProcessActionAlone(g: GameRecord, a: Action): (r: (GameRecord, Option<Response>))
    requires LoneSeat(g)
    ensures r.0.players == g.players && r.0.id == g.id && r.0.turn == g.turn && r.0.phase == DrawPhase
    ensures r.1.None? <==> !g.ended && (g.currentPlayerIndex == 1
                                        || (a.playerId == g.players[0].id && a.actionType == EndTurn))
    ensures r.1.Some? && r.1.value.success
            <==> !g.ended && g.currentPlayerIndex == 0 && a.playerId == g.players[0].id && a.actionType == Surrender
    ensures r.1.Some? && r.1.value.success ==> r.0.ended && View(r.0).winner.None?
    ensures r.1.Some? && !r.1.value.success ==> r.0 == g
    ensures r.1.None? ==> r.0 == g.(currentPlayerIndex := 1)
  {
    if g.ended then (g, Some(Fail(InvalidAction)))
    else if g.currentPlayerIndex != 0 then (g, None)
    else if a.playerId != g.players[0].id then (g, Some(Fail(NotYourTurn)))
    else
      match a.actionType
      case EndTurn => (g.(currentPlayerIndex := 1), None)
      case Surrender => (g.(winner := None, ended := true), Some(Ok()))
      case _ => (g, Some(Fail(InvalidAction)))
  }

  // ---------------------------------------------------------------------------
  // Views

  /** The game as every client receives it. */
  function View(g: GameRecord): (s: GameState)
    ensures s.players == g.players && s.currentPlayerIndex == g.currentPlayerIndex
    ensures s.winner.Some? <==> g.winner.Some? && g.winner.value < |g.players|
    ensures s.winner.Some? ==> s.winner.value == g.players[g.winner.value]
  {
    GameState(g.id, g.players, g.currentPlayerIndex, g.phase, g.turn,
              if g.winner.Some? && g.winner.value < |g.players| then Some(g.players[g.winner.value]) else None,
              g.lastAction, g.started)
  }

  /** The first seat of the given player id, or -1. */
  function SeatOf(ps: seq<PlayerState>, id: string): (k: int)
    ensures -1 <= k < |ps|
    ensures k == -1 <==> forall j :: 0 <= j < |ps| ==> ps[j].id != id
    ensures k >= 0 ==> ps[k].id == id && forall j :: 0 <= j < k ==> ps[j].id != id
  {
    if ps == [] then -1
    else if ps[0].id == id then 0
    else
      var k := SeatOf(ps[1..], id);
      if k == -1 then -1 else k + 1
  }

  /** The game as seen by one player: that player first, the other second, and the
      current index 0 exactly when it is that player's turn; winner and last action
      are not sent. None where the server throws: an unknown player, or no second
      seat opposite it. */
  function ViewFor(g: GameRecord, id: string): (v: Option<GameState>)
    ensures (forall j :: 0 <= j < |g.players| ==> g.players[j].id != id) ==> v.None?
    ensures v.Some? ==> && |v.value.players| == 2 && v.value.players[0].id == id
                        && v.value.players[0] in g.players && v.value.players[1] in g.players
                        && v.value.winner.None? && v.value.lastAction.None?
                        && v.value.phase == g.phase && v.value.turn == g.turn && v.value.started == g.started
  {
    var k := SeatOf(g.players, id);
    if k == -1 || !(0 <= 1 - k < |g.players|) then None
    else
      Some(GameState(g.id, [g.players[k], g.players[1 - k]],
                     if g.currentPlayerIndex == k then 0 else 1,
                     g.phase, g.turn, None, None, g.started))
  }
}
