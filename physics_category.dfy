/** The collision roles of the game: one bit of a 32-bit mask per role. */
module PhysicsCategory {

  const None: bv32 := 0
  const Player: bv32 := 1 << 0
  const Ground: bv32 := 1 << 1
  const Enemy: bv32 := 1 << 2
  const Coin: bv32 := 1 << 3
  const Powerup: bv32 := 1 << 4

  /** The roles that have a category bit of their own. */
  datatype Role = PlayerRole | GroundRole | EnemyRole | CoinRole | PowerupRole

  /** Exactly one bit is set. */
  predicate IsSingleBit(c: bv32) {
    c != 0 && c & (c - 1) == 0
  }

  /** The category constant of a role. */
  function Category(role: Role): (c: bv32)
    ensures IsSingleBit(c)
    ensures c != None
  {
    match role
    case PlayerRole => Player
    case GroundRole => Ground
    case EnemyRole => Enemy
    case CoinRole => Coin
    case PowerupRole => Powerup
  }

  /** The test `(mask & category) != 0` that the contact handler uses. */
  predicate HasCategory(mask: bv32, category: bv32) {
    mask & category != 0
  }

  /** Distinct roles have distinct bits, so testing a body of one role against another role's bit never matches. */
  lemma CategoriesDistinct(r1: Role, r2: Role)
    ensures HasCategory(Category(r1), Category(r2)) <==> r1 == r2
    ensures r1 != r2 ==> Category(r1) != Category(r2)
  {
  }

  /** A body whose category is `none` matches no role. */
  lemma NoneMatchesNothing(r: Role)
    ensures !HasCategory(None, Category(r))
  {
  }
}
