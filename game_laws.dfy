/** What the rules of server/src/models/Game.ts guarantee across all games and
    actions: the guards, the phase gates, the outcome of each action, and the facts
    that hold over whole games (no reset of attack flags or damage, no card created,
    the game invariant). */
module GameLaws {
  import opened Types
  import opened GameRules
  import PlayerRules
  import Cards

  // ---------------------------------------------------------------------------
  // Guards and gates

  /** Playing, attacking and using a technique outside the main phase, and setting food
      outside the set phase, fail with INVALID_ACTION and no change; skipping the set
      phase and an unknown action type always do. */
  lemma PhaseGates(g: GameRecord, a: Action)
    requires Seated(g) && !g.ended && a.playerId == Current(g).id
    ensures a.actionType in {PlayCard, Attack, UseTechnique} && g.phase != MainPhase
            ==> ProcessAction(g, a) == (g, Fail(InvalidAction))
    ensures a.actionType == SetFood && g.phase != SetPhase ==> ProcessAction(g, a) == (g, Fail(InvalidAction))
    ensures a.actionType in {SkipSetPhase, Unrecognized} ==> ProcessAction(g, a) == (g, Fail(InvalidAction))
  {
  }

  /** From a draw phase, four phase steps hand the other seat its draw phase, with that
      seat's cards untouched. */
  lemma NextPhaseCycle(g: GameRecord)
    requires Seated(g) && g.phase == DrawPhase
    ensures var r := NextPhase(NextPhase(NextPhase(NextPhase(g))));
            && r.phase == DrawPhase && r.currentPlayerIndex == Other(g.currentPlayerIndex)
            && r.players[Other(g.currentPlayerIndex)] == g.players[Other(g.currentPlayerIndex)]
  {
  }

  /** A rejected action changes nothing, with one exception: an attack that got as far
      as the attack itself has marked its attacker before failing. */
  lemma FailureChangesOnlyTheAttacker(g: GameRecord, a: Action)
    requires Seated(g)
    ensures var (g', resp) := ProcessAction(g, a);
            !resp.success && g' != g ==>
              && a.actionType == Attack
              && g' == WithPlayer(g, g.currentPlayerIndex,
                                  PlayerRules.Attack(Current(g), FieldIndex(Current(g).field, a.cardId),
                                                     TechniqueChoice(a)).0)
  {
  }

  // ---------------------------------------------------------------------------
  // Playing a card and setting food

  /** Playing a card in the main phase: CARD_NOT_FOUND exactly when no hand card has the
      id, INSUFFICIENT_FOOD exactly when the first such card costs more than the food;
      otherwise the player makes the PlayCard move, the action is recorded and the phase
      stays main. */
  lemma PlayCardOutcome(g: GameRecord, a: Action)
    requires Seated(g) && !g.ended && a.playerId == Current(g).id
    requires a.actionType == PlayCard && g.phase == MainPhase
    ensures var (g', resp) := ProcessAction(g, a);
            var p := Current(g);
            var k := HandIndex(p.hand, a.cardId);
            && (resp == Fail(CardNotFound) <==> forall j :: 0 <= j < |p.hand| ==> Some(p.hand[j].id) != a.cardId)
            && (resp == Fail(InsufficientFood) <==> k >= 0 && p.hand[k].cost > p.currentFood)
            && (resp.success <==> k >= 0 && p.hand[k].cost <= p.currentFood)
            && (resp.success ==>
                  && g' == WithPlayer(g, g.currentPlayerIndex, PlayerRules.PlayCard(p, k).0).(lastAction := Some(a))
                  && g'.phase == MainPhase)
            && (!resp.success ==> g' == g)
  {
  }

  /** Setting food that succeeds moves exactly the chosen hand card to the end of the
      food area, records the action and enters the main phase with the food equal to
      the size of the food area. */
  lemma SetFoodSuccess(g: GameRecord, a: Action)
    requires Seated(g) && !g.ended && a.playerId == Current(g).id && a.actionType == SetFood
    ensures var (g', resp) := ProcessAction(g, a);
            var i := g.currentPlayerIndex;
            var p := Current(g);
            var k := HandIndex(p.hand, a.cardId);
            resp.success <==> g.phase == SetPhase && k >= 0
    ensures var (g', resp) := ProcessAction(g, a);
            var i := g.currentPlayerIndex;
            var p := Current(g);
            var k := HandIndex(p.hand, a.cardId);
            resp.success ==>
              && g'.phase == MainPhase && g'.lastAction == Some(a)
              && g'.currentPlayerIndex == i && g'.players[Other(i)] == g.players[Other(i)]
              && g'.players[i].hand == p.hand[..k] + p.hand[k + 1..]
              && g'.players[i].foodArea == p.foodArea + [p.hand[k]]
              && g'.players[i].currentFood == |g'.players[i].foodArea|
              && g'.players[i].(hand := p.hand, foodArea := p.foodArea, currentFood := p.currentFood) == p
  {
  }

  // ---------------------------------------------------------------------------
  // Attacks

  /** An attack on a named bug that succeeds deals that bug exactly the raw attack of
      the chosen technique (no scaling), and changes nothing else on the defending
      side; the attacker is marked. */
  lemma AttackDamageIsRaw(g: GameRecord, a: Action)
    requires Seated(g) && !g.ended && a.playerId == Current(g).id && a.actionType == Attack
    requires ProcessAction(g, a).1.success && Truthy(a.targetId)
    ensures var g' := ProcessAction(g, a).0;
            var i := g.currentPlayerIndex;
            var p := Current(g);
            var ai := FieldIndex(p.field, a.cardId);
            var ti := TechniqueChoice(a);
            var o := Opponent(g);
            var di := FieldIndex(o.field, a.targetId);
            && 0 <= ai < |p.field| && PlayerRules.CanAttackWith(p, ai, ti) && 0 <= di < |o.field|
            && var power := Cards.AttackValue(p.field[ai].card.techniques.value[ti]);
            && power > 0
            && g'.players[Other(i)] == PlayerRules.ReceiveDamage(o, di, power).0
            && g'.players[i] == PlayerRules.Attack(p, ai, ti).0
            && g'.players[i].field[ai].hasAttacked
            && g'.lastAction == Some(a.(techniqueIndex := Some(ti)))
            && !g'.ended && g'.winner == g.winner
  {
    var i := g.currentPlayerIndex;
    var p := Current(g);
    var ai := FieldIndex(p.field, a.cardId);
    var ti := TechniqueChoice(a);
    assert ProcessAction(g, a) == HandleAttack(g, a);
    assert g.phase == MainPhase && ai != -1;
    var r := PlayerRules.Attack(p, ai, ti);
    var g1 := WithPlayer(g, i, r.0);
    assert HandleAttack(g, a) == Strike(g1, a, r.1, ti);
    assert PlayerRules.CanAttackWith(p, ai, ti);
    assert Opponent(g1) == Opponent(g);
  }

  /** An attack that reaches the attack step with an unmarked attacker marks it,
      whether or not the target then turns out to be invalid. */
  lemma AttackerMarkedEvenOnFailure(g: GameRecord, a: Action)
    requires Seated(g) && !g.ended && a.playerId == Current(g).id && a.actionType == Attack
    requires g.phase == MainPhase
    requires var p := Current(g);
             var ai := FieldIndex(p.field, a.cardId);
             ai >= 0 && PlayerRules.CanAttackWith(p, ai, TechniqueChoice(a))
    ensures var (g', resp) := ProcessAction(g, a);
            var i := g.currentPlayerIndex;
            var ai := FieldIndex(Current(g).field, a.cardId);
            && |g'.players[i].field| == |g.players[i].field|
            && g'.players[i].field[ai].hasAttacked
            && (resp == Fail(InvalidTarget) || resp == Fail(InvalidAction) ==>
                  g'.players[Other(i)] == g.players[Other(i)])
  {
    var i := g.currentPlayerIndex;
    var p := Current(g);
    var ai := FieldIndex(p.field, a.cardId);
    var ti := TechniqueChoice(a);
    var (p1, power) := PlayerRules.Attack(p, ai, ti);
    var g1 := WithPlayer(g, i, p1);
    assert p1.field[ai].hasAttacked && |p1.field| == |p.field|;
    assert ProcessAction(g, a) == HandleAttack(g, a);
    if power > 0 {
      assert HandleAttack(g, a) == Strike(g1, a, power, ti);
    }
  }

  /** A direct attack (no named target) succeeds only against an empty field; it then
      removes exactly the last territory card, sending it to no zone, or, when the
      territory is empty, makes the attacker the winner and ends the game. */
  lemma DirectAttack(g: GameRecord, a: Action)
    requires Seated(g) && !g.ended && a.playerId == Current(g).id && a.actionType == Attack
    requires ProcessAction(g, a).1.success && !Truthy(a.targetId)
    ensures var g' := ProcessAction(g, a).0;
            var i := g.currentPlayerIndex;
            var o := Opponent(g);
            && o.field == []
            && (|o.territory| > 0 ==>
                  && g'.players[Other(i)] == o.(territory := o.territory[..|o.territory| - 1])
                  && !g'.ended && g'.winner == g.winner)
            && (|o.territory| == 0 ==>
                  g'.players[Other(i)] == o && g'.ended && g'.winner == Some(i))
  {
  }

  /** A field card that has attacked cannot attack again: the attack fails with
      INVALID_ACTION and nothing changes. */
  lemma AttackedCardCannotAttack(g: GameRecord, a: Action)
    requires Seated(g) && !g.ended && a.playerId == Current(g).id && a.actionType == Attack
    requires var p := Current(g);
             var ai := FieldIndex(p.field, a.cardId);
             ai >= 0 && p.field[ai].hasAttacked
    ensures ProcessAction(g, a) == (g, Fail(InvalidAction))
  {
    var i := g.currentPlayerIndex;
    assert WithPlayer(g, i, Current(g)) == g;
  }

  // ---------------------------------------------------------------------------
  // Ending a turn and surrendering

  /** Ending a turn, in any phase, passes the turn to the other seat, counts a new turn
      exactly when the first seat is up again, and leaves the game in the set phase.
      The player who ended the turn is untouched: no attack flag or damage is cleared.
      The new current player draws the front card of the deck; if the deck is empty the
      game ends, won by the player with strictly more territory, or by nobody on a tie. */
  lemma {:induction false} EndTurnOutcome(g: GameRecord, a: Action)
    requires Seated(g) && !g.ended && a.playerId == Current(g).id && a.actionType == EndTurn
    requires g.turn >= 1 && g.winner.None?
    ensures var (g', resp) := ProcessAction(g, a);
            var i := g.currentPlayerIndex;
            var n := Other(i);
            var q := g.players[n];
            && resp.success
            && g'.currentPlayerIndex == n
            && g'.turn == (if n == 0 then g.turn + 1 else g.turn)
            && g'.phase == SetPhase
            && g'.players[i] == g.players[i]
            && g'.lastAction == g.lastAction
            && (q.deck != [] ==>
                  && g'.players[n] == q.(deck := q.deck[1..], hand := q.hand + [q.deck[0]])
                  && !g'.ended && g'.winner.None?)
            && (q.deck == [] ==>
                  && g'.players[n] == q
                  && g'.ended
                  && var t0 := |g.players[0].territory|;
                     var t1 := |g.players[1].territory|;
                     g'.winner == (if t0 > t1 then Some(0) else if t1 > t0 then Some(1) else None))
  {
    var i := g.currentPlayerIndex;
    var n := Other(i);
    var g1 := NextPhase(g.(phase := EndPhase));
    assert g1.currentPlayerIndex == n && g1.phase == DrawPhase;
    assert g1.turn == (if n == 0 then g.turn + 1 else g.turn);
    assert !(g1.turn == 1 && g1.currentPlayerIndex == 0);
    assert g1.players == g.players;
  }

  /** Surrender makes the other player the winner and ends the game; nothing else
      changes. */
  lemma SurrenderOutcome(g: GameRecord, a: Action)
    requires Seated(g) && !g.ended && a.playerId == Current(g).id && a.actionType == Surrender
    ensures ProcessAction(g, a) == (g.(winner := Some(Other(g.currentPlayerIndex)), ended := true), Ok())
  {
  }

  // ---------------------------------------------------------------------------
  // Views

  /** The per-player view exists exactly when the player holds one of two seats; it
      puts that player first and the other seat second, and its current index is 0
      exactly when the viewer holds the current seat. */
  lemma ViewForPerspective(g: GameRecord, id: string)
    requires |g.players| <= 2
    ensures var v := ViewFor(g, id);
            var k := SeatOf(g.players, id);
            && (v.Some? <==> |g.players| == 2 && exists j :: 0 <= j < 2 && g.players[j].id == id)
            && (v.Some? ==>
                  && |v.value.players| == 2
                  && v.value.players[0] == g.players[k] && v.value.players[0].id == id
                  && v.value.players[1] == g.players[1 - k]
                  && (v.value.currentPlayerIndex == 0 <==> g.currentPlayerIndex == k)
                  && v.value.phase == g.phase && v.value.turn == g.turn && v.value.started == g.started)
  {
    if |g.players| == 2 && exists j :: 0 <= j < 2 && g.players[j].id == id {
      var j :| 0 <= j < 2 && g.players[j].id == id;
      assert SeatOf(g.players, id) != -1;
    }
  }

  /** With distinct player ids, the viewer sees index 0 exactly on its own turn. */
  lemma ViewForTurn(g: GameRecord, id: string)
    requires Seated(g) && g.players[0].id != g.players[1].id
    ensures var v := ViewFor(g, id);
            v.Some? ==> (v.value.currentPlayerIndex == 0 <==> Current(g).id == id)
  {
    var k := SeatOf(g.players, id);
    if k >= 0 {
      assert g.players[k].id == id;
    }
  }

  // ---------------------------------------------------------------------------
  // Whole-game facts

  /** The invariant of a running game: two seats, a valid current seat, a turn count
      from 1, a winner only in an ended game and only among the seats, and food that
      is never negative. */
  predicate Inv(g: GameRecord)
  {
    && Seated(g)
    && g.turn >= 1
    && (g.winner.Some? ==> g.ended && g.winner.value < 2)
    && g.players[0].currentFood >= 0 && g.players[1].currentFood >= 0
  }

  /** A field card's identity, attachments, attack flag and damage as a later state of
      the same card: same bug and attachments, a set attack flag stays set, and damage
      never goes down. */
  predicate Keeps(x: FieldCard, y: FieldCard)
  {
    y.card == x.card && y.enhancements == x.enhancements && (x.hasAttacked ==> y.hasAttacked)
    && x.damage <= y.damage
  }

  /** Each card of the later field is the earlier card at its position, kept. */
  predicate KeepsAll(f: seq<FieldCard>, f': seq<FieldCard>)
  {
    |f'| == |f| && forall j :: 0 <= j < |f| ==> Keeps(f[j], f'[j])
  }

  /** The field without its card at position d. */
  function Removed(f: seq<FieldCard>, d: int): (r: seq<FieldCard>)
    requires 0 <= d < |f|
    ensures |r| == |f| - 1
    ensures forall j :: 0 <= j < d ==> r[j] == f[j]
    ensures forall j :: d <= j < |r| ==> r[j] == f[j + 1]
  {
    f[..d] + f[d + 1..]
  }

  /** The later field is the earlier one changed in one way, with every surviving card
      kept: the same cards at the same positions, one card removed with the rest in
      order, or one new bug appended that has not attacked and is undamaged. */
  predicate NoReset(f: seq<FieldCard>, f': seq<FieldCard>)
  {
    || KeepsAll(f, f')
    || (exists d :: 0 <= d < |f| && KeepsAll(Removed(f, d), f'))
    || (|f'| == |f| + 1 && KeepsAll(f, f'[..|f|]) && !f'[|f|].hasAttacked && f'[|f|].damage == 0)
  }

  lemma NoResetRemove(f: seq<FieldCard>, d: int)
    requires 0 <= d < |f|
    ensures NoReset(f, Removed(f, d))
  {
    KeepsAllRefl(Removed(f, d));
  }

  lemma KeepsAllRefl(f: seq<FieldCard>)
    ensures KeepsAll(f, f)
  {
    forall j | 0 <= j < |f|
      ensures Keeps(f[j], f[j])
    {
    }
  }

  lemma NoResetRefl(f: seq<FieldCard>)
    ensures NoReset(f, f)
  {
    KeepsAllRefl(f);
  }

  /** The no-reset relation compares position by position: a field of the same length
      in which the card at some position lost its attack flag or some damage is never
      a no-reset step, whatever the other positions hold. */
  lemma ClearedIsReset(f: seq<FieldCard>, f': seq<FieldCard>, j: int)
    requires |f'| == |f| && 0 <= j < |f|
    requires (f[j].hasAttacked && !f'[j].hasAttacked) || f'[j].damage < f[j].damage
    ensures !NoReset(f, f')
  {
  }

  /** What an action may do to one player: food that was not negative stays so, no
      field card is reset, and no card is created. */
  predicate PlayerStep(p: PlayerState, p': PlayerState)
  {
    && (p.currentFood >= 0 ==> p'.currentFood >= 0)
    && NoReset(p.field, p'.field)
    && PlayerRules.AllCards(p') <= PlayerRules.AllCards(p)
  }

  lemma PlayerStepRefl(p: PlayerState)
    ensures PlayerStep(p, p)
  {
    NoResetRefl(p.field);
  }

  lemma PlayerStepPlayCard(p: PlayerState, k: int)
    ensures PlayerStep(p, PlayerRules.PlayCard(p, k).0)
  {
    PlayerRules.PlayCardKeepsCards(p, k);
    var r := PlayerRules.PlayCard(p, k);
    if r.1.None? {
      PlayerStepRefl(p);
    } else if p.hand[k].cardType == BugCard {
      assert r.0.field[..|p.field|] == p.field;
      KeepsAllRefl(p.field);
    } else {
      assert r.0.field == p.field;
      NoResetRefl(p.field);
    }
  }

  lemma PlayerStepSetFood(p: PlayerState, k: int)
    ensures PlayerStep(p, PlayerRules.UpdateFood(PlayerRules.SetFood(p, k).0))
  {
    PlayerRules.SetFoodKeepsCards(p, k);
    NoResetRefl(p.field);
  }

  lemma PlayerStepAttack(p: PlayerState, ai: int, ti: int)
    ensures PlayerStep(p, PlayerRules.Attack(p, ai, ti).0)
  {
    PlayerRules.AttackKeepsCards(p, ai, ti);
    var q := PlayerRules.Attack(p, ai, ti).0;
    assert KeepsAll(p.field, q.field);
  }

  lemma PlayerStepDamage(o: PlayerState, di: int, power: int)
    requires power > 0
    ensures PlayerStep(o, PlayerRules.ReceiveDamage(o, di, power).0)
  {
    PlayerRules.ReceiveDamageKeepsCards(o, di, power);
    if 0 <= di < |o.field| && PlayerRules.ReceiveDamage(o, di, power).1 {
      NoResetRemove(o.field, di);
    } else if 0 <= di < |o.field| {
      var q := PlayerRules.ReceiveDamage(o, di, power).0;
      assert KeepsAll(o.field, q.field);
    } else {
      NoResetRefl(o.field);
    }
  }

  lemma PlayerStepPop(o: PlayerState)
    requires |o.territory| > 0
    ensures PlayerStep(o, o.(territory := o.territory[..|o.territory| - 1]))
  {
    NoResetRefl(o.field);
    var t := o.territory;
    assert t == t[..|t| - 1] + [t[|t| - 1]];
    assert multiset(t[..|t| - 1]) <= multiset(t);
  }

  lemma PlayerStepDraw(p: PlayerState)
    ensures PlayerStep(p, PlayerRules.DrawCard(p).0)
  {
    PlayerRules.DrawCardKeepsCards(p);
    NoResetRefl(p.field);
  }

  /** What one action may do to a game that satisfies the invariant: keep the
      invariant and the id, not lower the turn count, and make a PlayerStep on both
      sides. */
  predicate Step(g: GameRecord, g': GameRecord)
    requires Inv(g)
  {
    && Inv(g') && g'.turn >= g.turn && g'.id == g.id
    && PlayerStep(g.players[0], g'.players[0])
    && PlayerStep(g.players[1], g'.players[1])
  }

  lemma StepUnchanged(g: GameRecord)
    requires Inv(g)
    ensures Step(g, g)
  {
    PlayerStepRefl(g.players[0]);
    PlayerStepRefl(g.players[1]);
  }

  /** A game in which only seat i changed, by a PlayerStep. */
  lemma StepOneSeat(g: GameRecord, i: int, q: PlayerState, g': GameRecord)
    requires Inv(g) && 0 <= i < 2
    requires PlayerStep(g.players[i], q)
    requires g' == WithPlayer(g, i, q).(lastAction := g'.lastAction, phase := g'.phase)
    ensures Step(g, g')
  {
    PlayerStepRefl(g.players[1 - i]);
    assert g'.players[1 - i] == g.players[1 - i];
  }

  lemma StepPlayCard(g: GameRecord, a: Action)
    requires Inv(g)
    ensures Step(g, HandlePlayCard(g, a).0)
  {
    var i := g.currentPlayerIndex;
    var p := Current(g);
    var k := HandIndex(p.hand, a.cardId);
    var g' := HandlePlayCard(g, a).0;
    if g' == g {
      StepUnchanged(g);
    } else {
      PlayerStepPlayCard(p, k);
      StepOneSeat(g, i, PlayerRules.PlayCard(p, k).0, g');
    }
  }

  lemma StepSetFood(g: GameRecord, a: Action)
    requires Inv(g)
    ensures Step(g, HandleSetFood(g, a).0)
  {
    var i := g.currentPlayerIndex;
    var p := Current(g);
    var k := HandIndex(p.hand, a.cardId);
    if g.phase != SetPhase || k == -1 {
      StepUnchanged(g);
    } else {
      var q := PlayerRules.SetFood(p, k).0;
      var g1 := WithPlayer(g, i, q).(lastAction := Some(a));
      assert HandleSetFood(g, a).0 == NextPhase(g1);
      PlayerStepSetFood(p, k);
      StepOneSeat(g, i, PlayerRules.UpdateFood(q), NextPhase(g1));
    }
  }

  /** The second half of an attack keeps the invariant and changes at most the
      defender, by damage or by the loss of its last territory card. */
  lemma StrikeShape(g: GameRecord, a: Action, power: int, ti: int)
    requires Inv(g)
    ensures var g' := Strike(g, a, power, ti).0;
            var i := g.currentPlayerIndex;
            && Inv(g') && g'.turn == g.turn && g'.id == g.id
            && g'.players[i] == g.players[i]
    ensures var g' := Strike(g, a, power, ti).0;
            var o := Opponent(g);
            var di := FieldIndex(o.field, a.targetId);
            var defender := g'.players[Other(g.currentPlayerIndex)];
            if Truthy(a.targetId) && di != -1 then defender == PlayerRules.ReceiveDamage(o, di, power).0
            else if !Truthy(a.targetId) && |o.field| == 0 && |o.territory| > 0 then
              defender == o.(territory := o.territory[..|o.territory| - 1])
            else defender == o
  {
    var i := g.currentPlayerIndex;
    var o := Opponent(g);
    var g' := Strike(g, a, power, ti).0;
    assert i == 0 || i == 1;
    if Truthy(a.targetId) {
      var di := FieldIndex(o.field, a.targetId);
      if di != -1 {
        assert g'.players == g.players[Other(i) := PlayerRules.ReceiveDamage(o, di, power).0];
      }
    } else if |o.field| == 0 {
      if |o.territory| > 0 {
        assert g'.players == g.players[Other(i) := o.(territory := o.territory[..|o.territory| - 1])];
      } else {
        assert g'.players == g.players && g'.winner == Some(i) && g'.ended;
      }
    }
  }

  /** An attack changes at most the attacker (by the attack move) and the defender, and
      keeps the invariant. */
  lemma AttackShape(g: GameRecord, a: Action)
    requires Inv(g)
    ensures var g' := HandleAttack(g, a).0;
            var i := g.currentPlayerIndex;
            var p := Current(g);
            var ai := FieldIndex(p.field, a.cardId);
            var ti := TechniqueChoice(a);
            var (p1, power) := PlayerRules.Attack(p, ai, ti);
            g' == g || g' == WithPlayer(g, i, p1) || (power > 0 && g' == Strike(WithPlayer(g, i, p1), a, power, ti).0)
  {
  }

  /** The attacker's seat after the attack move, then the strike on the defender. */
  lemma StepStrike(g: GameRecord, a: Action, p1: PlayerState, power: int, ti: int)
    requires Inv(g) && power > 0
    requires PlayerStep(Current(g), p1) && p1.currentFood == Current(g).currentFood
    ensures Step(g, Strike(WithPlayer(g, g.currentPlayerIndex, p1), a, power, ti).0)
  {
    var o := Opponent(g);
    if Truthy(a.targetId) && FieldIndex(o.field, a.targetId) != -1 {
      StrikeDamageStep(g, a, p1, power, ti);
    } else if !Truthy(a.targetId) && |o.field| == 0 && |o.territory| > 0 {
      StrikePopStep(g, a, p1, power, ti);
    } else {
      StrikeOtherStep(g, a, p1, power, ti);
    }
  }

  lemma StrikeDamageStep(g: GameRecord, a: Action, p1: PlayerState, power: int, ti: int)
    requires Inv(g) && power > 0
    requires PlayerStep(Current(g), p1) && p1.currentFood == Current(g).currentFood
    requires Truthy(a.targetId) && FieldIndex(Opponent(g).field, a.targetId) != -1
    ensures Step(g, Strike(WithPlayer(g, g.currentPlayerIndex, p1), a, power, ti).0)
  {
    var i := g.currentPlayerIndex;
    var o := Opponent(g);
    var di := FieldIndex(o.field, a.targetId);
    var g1 := WithPlayer(g, i, p1);
    assert i == 0 || i == 1;
    assert Opponent(g1) == o;
    var d := PlayerRules.ReceiveDamage(o, di, power).0;
    var g' := WithPlayer(g1, Other(i), d).(lastAction := Some(a.(actionType := Attack, techniqueIndex := Some(ti))));
    assert Strike(g1, a, power, ti).0 == g';
    PlayerStepDamage(o, di, power);
    StepBySeat(g, g', p1, d);
  }

  lemma StrikePopStep(g: GameRecord, a: Action, p1: PlayerState, power: int, ti: int)
    requires Inv(g) && power > 0
    requires PlayerStep(Current(g), p1) && p1.currentFood == Current(g).currentFood
    requires !Truthy(a.targetId) && |Opponent(g).field| == 0 && |Opponent(g).territory| > 0
    ensures Step(g, Strike(WithPlayer(g, g.currentPlayerIndex, p1), a, power, ti).0)
  {
    var i := g.currentPlayerIndex;
    var o := Opponent(g);
    var g1 := WithPlayer(g, i, p1);
    assert i == 0 || i == 1;
    assert Opponent(g1) == o;
    var d := o.(territory := o.territory[..|o.territory| - 1]);
    var g' := WithPlayer(g1, Other(i), d).(lastAction := Some(a.(actionType := Attack, techniqueIndex := Some(ti))));
    assert Strike(g1, a, power, ti).0 == g';
    PlayerStepPop(o);
    StepBySeat(g, g', p1, d);
  }

  lemma StrikeOtherStep(g: GameRecord, a: Action, p1: PlayerState, power: int, ti: int)
    requires Inv(g) && power > 0
    requires PlayerStep(Current(g), p1) && p1.currentFood == Current(g).currentFood
    requires !(Truthy(a.targetId) && FieldIndex(Opponent(g).field, a.targetId) != -1)
    requires !(!Truthy(a.targetId) && |Opponent(g).field| == 0 && |Opponent(g).territory| > 0)
    ensures Step(g, Strike(WithPlayer(g, g.currentPlayerIndex, p1), a, power, ti).0)
  {
    var i := g.currentPlayerIndex;
    var o := Opponent(g);
    var g1 := WithPlayer(g, i, p1);
    assert i == 0 || i == 1;
    assert Opponent(g1) == o;
    var g' := Strike(g1, a, power, ti).0;
    assert g'.players == g1.players && g'.turn == g.turn && g'.id == g.id;
    assert g'.winner.Some? ==> g'.ended && g'.winner.value < 2;
    PlayerStepRefl(o);
    StepBySeat(g, g', p1, o);
  }

  lemma StepAttack(g: GameRecord, a: Action)
    requires Inv(g)
    ensures Step(g, HandleAttack(g, a).0)
  {
    var i := g.currentPlayerIndex;
    var p := Current(g);
    var ai := FieldIndex(p.field, a.cardId);
    var ti := TechniqueChoice(a);
    if g.phase != MainPhase || ai == -1 {
      StepUnchanged(g);
    } else if p.field[ai].card.techniques.None? || ti >= |p.field[ai].card.techniques.value| || ti < 0 {
      StepUnchanged(g);
    } else {
      StepAttackMarked(g, a, ai, ti);
    }
  }

  lemma StepAttackMarked(g: GameRecord, a: Action, ai: int, ti: int)
    requires Inv(g) && g.phase == MainPhase
    requires ai == FieldIndex(Current(g).field, a.cardId) && ai != -1 && ti == TechniqueChoice(a)
    requires var t := Current(g).field[ai].card.techniques;
             t.Some? && 0 <= ti < |t.value|
    ensures Step(g, HandleAttack(g, a).0)
  {
    if PlayerRules.Attack(Current(g), ai, ti).1 <= 0 {
      StepAttackPowerless(g, a, ai, ti);
    } else {
      StepAttackStrikes(g, a, ai, ti);
    }
  }

  lemma StepAttackPowerless(g: GameRecord, a: Action, ai: int, ti: int)
    requires Inv(g) && g.phase == MainPhase
    requires ai == FieldIndex(Current(g).field, a.cardId) && ai != -1 && ti == TechniqueChoice(a)
    requires var t := Current(g).field[ai].card.techniques;
             t.Some? && 0 <= ti < |t.value|
    requires PlayerRules.Attack(Current(g), ai, ti).1 <= 0
    ensures Step(g, HandleAttack(g, a).0)
  {
    var i := g.currentPlayerIndex;
    var p1 := PlayerRules.Attack(Current(g), ai, ti).0;
    var g1 := WithPlayer(g, i, p1);
    assert HandleAttack(g, a).0 == g1;
    PlayerStepAttack(Current(g), ai, ti);
    PlayerStepRefl(Opponent(g));
    assert i == 0 || i == 1;
    StepBySeat(g, g1, p1, Opponent(g));
  }

  lemma StepAttackStrikes(g: GameRecord, a: Action, ai: int, ti: int)
    requires Inv(g) && g.phase == MainPhase
    requires ai == FieldIndex(Current(g).field, a.cardId) && ai != -1 && ti == TechniqueChoice(a)
    requires var t := Current(g).field[ai].card.techniques;
             t.Some? && 0 <= ti < |t.value|
    requires PlayerRules.Attack(Current(g), ai, ti).1 > 0
    ensures Step(g, HandleAttack(g, a).0)
  {
    var r := PlayerRules.Attack(Current(g), ai, ti);
    assert HandleAttack(g, a).0 == Strike(WithPlayer(g, g.currentPlayerIndex, r.0), a, r.1, ti).0;
    PlayerStepAttack(Current(g), ai, ti);
    StepStrike(g, a, r.0, r.1, ti);
  }

  /** Step from the current player's seat and the other seat. */
  lemma StepBySeat(g: GameRecord, g': GameRecord, q: PlayerState, d: PlayerState)
    requires Inv(g) && Inv(g') && g'.turn >= g.turn && g'.id == g.id
    requires g'.players[g.currentPlayerIndex] == q && PlayerStep(Current(g), q)
    requires g'.players[Other(g.currentPlayerIndex)] == d && PlayerStep(Opponent(g), d)
    ensures Step(g, g')
  {
    assert g.currentPlayerIndex == 0 || g.currentPlayerIndex == 1;
  }

  /** Ending a turn changes only the seat that draws, and keeps the invariant. */
  lemma EndTurnShape(g: GameRecord)
    requires Inv(g)
    ensures var g' := HandleEndTurn(g).0;
            var n := Other(g.currentPlayerIndex);
            && Inv(g') && g'.turn >= g.turn && g'.id == g.id
            && g'.players == g.players[n := PlayerRules.DrawCard(g.players[n]).0]
  {
    var n := Other(g.currentPlayerIndex);
    var g1 := NextPhase(g.(phase := EndPhase));
    assert g1 == g.(currentPlayerIndex := n, phase := DrawPhase, turn := if n == 0 then g.turn + 1 else g.turn);
    TurnDrawShape(g1);
  }

  /** Outside the first seat's first turn, the turn's draw changes only the current
      seat, by one draw, and keeps the invariant. */
  lemma TurnDrawShape(g: GameRecord)
    requires Inv(g) && g.phase == DrawPhase && !(g.turn == 1 && g.currentPlayerIndex == 0)
    ensures var g' := NextPhase(TurnDraw(g));
            var i := g.currentPlayerIndex;
            && Inv(g') && g'.turn == g.turn && g'.id == g.id
            && g'.players == g.players[i := PlayerRules.DrawCard(g.players[i]).0]
  {
    var i := g.currentPlayerIndex;
    var q := PlayerRules.DrawCard(g.players[i]).0;
    var gd := WithPlayer(g, i, q);
    assert TurnDraw(g).players == gd.players && TurnDraw(g).phase == DrawPhase;
  }

  /** Step from its parts. */
  lemma StepOf(g: GameRecord, g': GameRecord)
    requires Inv(g) && Inv(g') && g'.turn >= g.turn && g'.id == g.id
    requires PlayerStep(g.players[0], g'.players[0]) && PlayerStep(g.players[1], g'.players[1])
    ensures Step(g, g')
  {
  }

  lemma StepEndTurn(g: GameRecord)
    requires Inv(g)
    ensures Step(g, HandleEndTurn(g).0)
  {
    var n := Other(g.currentPlayerIndex);
    EndTurnShape(g);
    PlayerStepDraw(g.players[n]);
    PlayerStepRefl(g.players[1 - n]);
    StepOf(g, HandleEndTurn(g).0);
  }

  /** Every action on a game that satisfies the invariant is a Step. */
  lemma ActionIsStep(g: GameRecord, a: Action)
    requires Inv(g)
    ensures Step(g, ProcessAction(g, a).0)
  {
    if !g.ended && a.playerId == Current(g).id {
      match a.actionType
      case PlayCard => StepPlayCard(g, a);
      case Attack => StepAttack(g, a);
      case SetFood => StepSetFood(g, a);
      case EndTurn => StepEndTurn(g);
      case _ => StepUnchanged(g);
    } else {
      StepUnchanged(g);
    }
  }

  /** Every action keeps the invariant, never lowers the turn count, and never
      reopens an ended game. */
  lemma ProcessActionKeepsInv(g: GameRecord, a: Action)
    requires Inv(g)
    ensures var g' := ProcessAction(g, a).0;
            Inv(g') && g'.turn >= g.turn && (g.ended ==> g' == g) && g'.id == g.id
  {
    ActionIsStep(g, a);
  }

  /** No action clears an attack flag or heals damage: on each side of the table the
      field after the action is the field before it with every card kept, with one
      card removed, or with one new bug appended. In particular a bug attacks at most
      once while it is on the field. */
  lemma NeverCleared(g: GameRecord, a: Action)
    requires Inv(g)
    ensures var g' := ProcessAction(g, a).0;
            |g'.players| == 2
            && NoReset(g.players[0].field, g'.players[0].field)
            && NoReset(g.players[1].field, g'.players[1].field)
  {
    ActionIsStep(g, a);
  }

  /** Cards never appear from nowhere: after any action each player holds a
      sub-multiset of the cards held before (cards leave only when an enhancement is
      played or a territory card is taken by a direct attack). */
  lemma NoCardCreated(g: GameRecord, a: Action)
    requires Inv(g)
    ensures var g' := ProcessAction(g, a).0;
            |g'.players| == 2
            && PlayerRules.AllCards(g'.players[0]) <= PlayerRules.AllCards(g.players[0])
            && PlayerRules.AllCards(g'.players[1]) <= PlayerRules.AllCards(g.players[1])
  {
    ActionIsStep(g, a);
  }
}
