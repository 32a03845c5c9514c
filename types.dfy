/** Shapes shared by the server rules and the client predicates: cards, field cards,
    actions, the per-player state and the game state as it is sent to clients. */
module Types {

  datatype Option<+T> = None | Some(value: T)

  /** The three card categories: bug (a creature), enhancement and technique. */
  datatype CardType = BugCard | EnhancementCard | TechniqueCard

  datatype CardAttribute = Red | Blue | Green

  /** A named move of a bug card; `attack` and `effect` are optional. */
  datatype Technique = Technique(name: string, attack: Option<int>, effect: Option<string>)

  /** A catalog card. Optional fields of the card record are `Option`s. */
  datatype Card = Card(
    id: string,
    name: string,
    cardType: CardType,
    attribute: CardAttribute,
    cost: int,
    hitpoints: Option<int>,
    techniques: Option<seq<Technique>>,
    flavorText: Option<string>,
    rarity: string,
    cardSet: string,
    image: string)

  /** A bug card in play, with its attached cards, accumulated damage and attack flag. */
  datatype FieldCard = FieldCard(card: Card, enhancements: seq<Card>, damage: int, hasAttacked: bool)

  datatype Phase = DrawPhase | SetPhase | MainPhase | EndPhase

  /** The seven action kinds, plus any other string a client may send. */
  datatype ActionType =
    | PlayCard | Attack | SetFood | SkipSetPhase | UseTechnique | EndTurn | Surrender
    | Unrecognized

  datatype Action = Action(
    actionType: ActionType,
    playerId: string,
    cardId: Option<string>,
    targetId: Option<string>,
    techniqueIndex: Option<int>)

  datatype ErrorType = InvalidAction | NotYourTurn | InsufficientFood | CardNotFound | InvalidTarget

  /** The `{ success, error? }` record returned by action processing. */
  datatype Response = Response(success: bool, error: Option<ErrorType>)

  function Ok(): Response { Response(true, None) }

  function Fail(e: ErrorType): Response { Response(false, Some(e)) }

  /** The serialised form of a player: identity, the six zones and the food counter. */
  datatype PlayerState = PlayerState(
    id: string,
    username: string,
    deck: seq<Card>,
    hand: seq<Card>,
    field: seq<FieldCard>,
    foodArea: seq<Card>,
    territory: seq<Card>,
    graveyard: seq<Card>,
    currentFood: int,
    isReady: bool)

  /** The serialised form of a game as clients receive it. */
  datatype GameState = GameState(
    id: string,
    players: seq<PlayerState>,
    currentPlayerIndex: int,
    phase: Phase,
    turn: int,
    winner: Option<PlayerState>,
    lastAction: Option<Action>,
    started: bool)

  /** Why a validator rejected its input; each stands for one message text. */
  datatype Reason =
    | DeckSize
    | DuplicateName(name: string)
    | UnknownCard(name: string)
    | UnknownActionType
    | MissingPlayerId
    | MissingCardId
    | MissingAttackerId
    | MissingTechniqueCardId
    | MissingTechniqueIndex
    | UsernameBlank
    | UsernameTooShort
    | UsernameTooLong
    | GameIdBlank
    | GameIdMalformed

  /** The `{ valid, message? }` record returned by the validators. */
  datatype Validation = Valid | Invalid(reason: Reason)

  /** JavaScript truthiness of an optional string: present and not empty. */
  predicate Truthy(s: Option<string>) {
    s.Some? && s.value != ""
  }
}
