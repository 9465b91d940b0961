/**
 * The contact resolver: what one begin-contact event between two bodies does
 * to the game state. A coin contact between two named nodes removes the coin
 * and scores a point; otherwise a player-against-enemy contact between two
 * bodies that both have a node is a stomp when the player falls faster than
 * 50 units per second, and game over when it does not. A missing node makes
 * it do nothing, and when both bodies carry both bits body A is the player.
 */
module Contact {
  import opened Wrappers
  import opened Effects
  import PhysicsCategory

  /** A scene node: its identity and its optional name. */
  datatype Node = Node(id: nat, name: Option<string>)

  /** One side of a contact: the body's node (a body may have none) and its category mask. */
  datatype Body = Body(node: Option<Node>, category: bv32)

  /** `body.node?.name`: nil when the body has no node or the node no name. */
  function NameOf(b: Body): Option<string>
  {
    if b.node.Some? then b.node.value.name else None
  }

  const CoinName: string := "coin"
  /** A player falling faster than this (vy < -50) stomps. */
  const StompSpeed: real := -50.0
  const StompBounce: real := 180.0
  const GameOverText: string := "Game Over"

  /** `names.contains("coin") && names.contains(nil) == false` for `names = [a.node?.name, b.node?.name]`. */
  predicate IsCoinContact(a: Body, b: Body) {
    (NameOf(a) == Some(CoinName) || NameOf(b) == Some(CoinName)) && NameOf(a).Some? && NameOf(b).Some?
  }

  /** `p` carries the player bit and `e` the enemy bit. */
  predicate PlayerAgainstEnemy(p: Body, e: Body) {
    PhysicsCategory.HasCategory(p.category, PhysicsCategory.Player)
    && PhysicsCategory.HasCategory(e.category, PhysicsCategory.Enemy)
  }

  /** What a contact event does. */
  datatype Outcome =
    | CoinPickup(coin: Node)   // the coin node is removed, score + 1
    | Stomp(enemy: Node)       // the enemy node is removed, the player bounces
    | PlayerKilled             // game over: label, player removed, scene paused
    | NoEffect

  /** `handlePlayerHitEnemy`: nothing without both nodes, a stomp when falling fast enough, else game over. */
  function HitEnemy(playerNode: Option<Node>, enemyNode: Option<Node>, playerVy: real): Outcome
  {
    if playerNode.None? || enemyNode.None? then NoEffect
    else if playerVy < StompSpeed then Stomp(enemyNode.value)
    else PlayerKilled
  }

  /** The branch `didBegin` takes for bodies `a`, `b`, given the scene player's vertical velocity. */
  function Resolve(a: Body, b: Body, playerVy: real): Outcome
  {
    if IsCoinContact(a, b) then
      if NameOf(a) == Some(CoinName) then CoinPickup(a.node.value) else CoinPickup(b.node.value)
    else if PlayerAgainstEnemy(a, b) then HitEnemy(a.node, b.node, playerVy)
    else if PlayerAgainstEnemy(b, a) then HitEnemy(b.node, a.node, playerVy)
    else NoEffect
  }

  /** The part of the scene state that contacts change. */
  datatype World = World(score: int, removed: set<nat>, paused: bool, effects: seq<Effect>)

  /** The effect of an outcome; `player` is the id of the scene's player node, which game over removes. */
  function Apply(w: World, player: nat, o: Outcome): World
  {
    match o
    case CoinPickup(n) => w.(score := w.score + 1, removed := w.removed + {n.id})
    case Stomp(e) => w.(removed := w.removed + {e.id}, effects := w.effects + [Impulse(0.0, StompBounce)])
    case PlayerKilled =>
      w.(removed := w.removed + {player}, paused := true, effects := w.effects + [GameOverLabel(GameOverText)])
    case NoEffect => w
  }

  /** One begin-contact event. */
  function DidBegin(w: World, player: nat, a: Body, b: Body, playerVy: real): World
  {
    Apply(w, player, Resolve(a, b, playerVy))
  }

  // ---------------------------------------------------------------------
  // Properties
  // ---------------------------------------------------------------------

  /**
   * A coin contact picks up the coin whatever the categories say (the enemy
   * check is skipped), the node taken being `a`'s when `a` is the coin; and
   * only coin contacts pick anything up.
   */
  lemma CoinContactPicksCoin(a: Body, b: Body, playerVy: real)
    ensures Resolve(a, b, playerVy).CoinPickup? <==> IsCoinContact(a, b)
    ensures IsCoinContact(a, b) ==>
      var n := Resolve(a, b, playerVy).coin;
      n.name == Some(CoinName) &&
      (if NameOf(a) == Some(CoinName) then a.node == Some(n) else b.node == Some(n))
  {
  }

  /** A contact changes the score by exactly one point when it is a coin contact, and otherwise not at all. */
  lemma ScoreOnlyFromCoins(w: World, player: nat, a: Body, b: Body, playerVy: real)
    ensures DidBegin(w, player, a, b, playerVy).score == w.score + (if IsCoinContact(a, b) then 1 else 0)
  {
    CoinContactPicksCoin(a, b, playerVy);
  }

  /** A coin pickup removes exactly the coin node and changes nothing else but the score. */
  lemma CoinPickupEffect(w: World, player: nat, a: Body, b: Body, playerVy: real)
    requires IsCoinContact(a, b)
    ensures var w' := DidBegin(w, player, a, b, playerVy); var n := Resolve(a, b, playerVy).coin;
      w'.score == w.score + 1 && w'.removed == w.removed + {n.id} &&
      w'.paused == w.paused && w'.effects == w.effects
  {
  }

  /**
   * Player-against-enemy detection does not depend on which body is `a`:
   * unless both bodies are coins or each carries both bits, swapping them
   * gives the same outcome.
   */
  lemma ResolveOrderIndependent(a: Body, b: Body, playerVy: real)
    requires !(NameOf(a) == Some(CoinName) && NameOf(b) == Some(CoinName))
    requires !(PlayerAgainstEnemy(a, b) && PlayerAgainstEnemy(b, a))
    ensures Resolve(a, b, playerVy) == Resolve(b, a, playerVy)
  {
  }

  /**
   * With both nodes present and no coin involved, a contact whose body A is
   * the player and body B the enemy is a stomp of the enemy exactly when
   * vy < -50, and game over otherwise; this holds also when both bodies carry
   * both bits, where body A is taken as the player.
   */
  lemma PlayerHitsEnemy(p: Body, e: Body, playerVy: real)
    requires !IsCoinContact(p, e) && PlayerAgainstEnemy(p, e)
    requires p.node.Some? && e.node.Some?
    ensures Resolve(p, e, playerVy) == if playerVy < StompSpeed then Stomp(e.node.value) else PlayerKilled
  {
  }

  /** The same contact with the enemy as body A resolves the same way, unless body A is also a player. */
  lemma EnemyHitsPlayer(p: Body, e: Body, playerVy: real)
    requires !IsCoinContact(e, p) && PlayerAgainstEnemy(p, e) && !PlayerAgainstEnemy(e, p)
    requires p.node.Some? && e.node.Some?
    ensures Resolve(e, p, playerVy) == if playerVy < StompSpeed then Stomp(e.node.value) else PlayerKilled
  {
  }

  /** A contact in which the player or the enemy body has no node does nothing. */
  lemma MissingNodeIgnored(p: Body, e: Body, playerVy: real)
    requires !IsCoinContact(p, e) && PlayerAgainstEnemy(p, e)
    requires p.node.None? || e.node.None?
    ensures Resolve(p, e, playerVy) == NoEffect
  {
  }

  /** A stomp removes only the enemy, keeps the player as it was (alive stays alive) and does not pause. */
  lemma StompSparesPlayer(w: World, player: nat, e: Node)
    requires e.id != player
    ensures var w' := Apply(w, player, Stomp(e));
      w'.removed == w.removed + {e.id} && (player in w'.removed <==> player in w.removed) &&
      w'.paused == w.paused && w'.score == w.score && w'.effects == w.effects + [Impulse(0.0, 180.0)]
  {
  }

  /** Game over removes the player, pauses the scene and shows the label; the score stays. */
  lemma GameOverEffect(w: World, player: nat)
    ensures var w' := Apply(w, player, PlayerKilled);
      player in w'.removed && w'.paused && w'.score == w.score &&
      w'.removed == w.removed + {player} && w'.effects == w.effects + [GameOverLabel("Game Over")]
  {
  }

  /** A contact with neither a coin nor a player-enemy pair changes nothing. */
  lemma UnrelatedContactIgnored(w: World, player: nat, a: Body, b: Body, playerVy: real)
    requires !IsCoinContact(a, b) && !PlayerAgainstEnemy(a, b) && !PlayerAgainstEnemy(b, a)
    ensures DidBegin(w, player, a, b, playerVy) == w
  {
  }

  // ---------------------------------------------------------------------
  // Sequences of contacts
  // ---------------------------------------------------------------------

  datatype ContactEvent = ContactEvent(a: Body, b: Body, playerVy: real)

  /** The state after the events, in order. */
  function Replay(w: World, player: nat, events: seq<ContactEvent>): World
    decreases |events|
  {
    if |events| == 0 then w
    else
      var e := events[0];
      Replay(DidBegin(w, player, e.a, e.b, e.playerVy), player, events[1..])
  }

  /** Number of coin contacts among the events. */
  function CoinContacts(events: seq<ContactEvent>): nat
  {
    if |events| == 0 then 0
    else (if IsCoinContact(events[0].a, events[0].b) then 1 else 0) + CoinContacts(events[1..])
  }

  /** The score rises by exactly one per coin contact and so never falls; removed nodes stay removed. */
  lemma {:induction false} ScoreCountsCoins(w: World, player: nat, events: seq<ContactEvent>)
    ensures var w' := Replay(w, player, events);
      w'.score == w.score + CoinContacts(events) && w'.score >= w.score && w.removed <= w'.removed
    decreases |events|
  {
    if |events| > 0 {
      var e := events[0];
      ScoreOnlyFromCoins(w, player, e.a, e.b, e.playerVy);
      ScoreCountsCoins(DidBegin(w, player, e.a, e.b, e.playerVy), player, events[1..]);
    }
  }

  /** Once paused, the scene stays paused through any further contacts. */
  lemma {:induction false} PauseIsFinal(w: World, player: nat, events: seq<ContactEvent>)
    requires w.paused
    ensures Replay(w, player, events).paused
    decreases |events|
  {
    if |events| > 0 {
      var e := events[0];
      PauseIsFinal(DidBegin(w, player, e.a, e.b, e.playerVy), player, events[1..]);
    }
  }
}
