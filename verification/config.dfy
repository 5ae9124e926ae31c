/**
 Build-time constants of the game (play area, entity sizes, initial attributes,
 speeds and timers). Lengths are in pixels, times in seconds, speeds in pixels
 per second; the ones the source writes as integer literals but stores in
 `double` fields are given as reals.
 */
module Config {

  const GameWidth: real := 800.0
  const GameHeight: real := 800.0

  const PlayerWidth: real := 80.0
  const PlayerHeight: real := 120.0
  const EnemyWidth: real := 80.0
  const EnemyHeight: real := 80.0
  const BulletRadius: real := 5.0

  const PlayerInitialHealth: int := 3
  const PlayerSpeed: real := 500.0
  const PlayerBulletCooldown: real := 0.1

  const BulletSpeed: real := 800.0
  const BulletDamage: int := 1

  const EnemySpeed: real := 200.0
  const EnemySpawnInterval: real := 1.0
  const EnemyHealth: int := 1
  const EnemyScore: int := 10

  /** How far below the play area an enemy may drift before it is culled. */
  const EnemyCullMargin: real := 50.0
  /** Height above the play area at which random enemies appear. */
  const EnemySpawnY: real := -100.0
  /** Horizontal inset of the random spawn range on both sides. */
  const EnemySpawnInset: real := 30.0
  /** Gap between the player's start position and the bottom of the play area. */
  const PlayerStartGap: real := 20.0
}
