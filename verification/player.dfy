/**
 The player singleton: a record plus an "exists" flag. Destroying the player
 only clears the flag; creating it rewrites every field.
 */
module Players {
  import opened Types
  import opened Geometry
  import opened Config
  import opened Options
  import Input

  datatype Player = Player(position: Vector2, width: real, height: real, attributes: Attribute)

  /** The two globals that hold the player: the record and whether it currently exists. */
  datatype PlayerSlot = PlayerSlot(hasPlayer: bool, player: Player)

  /** The player's box, top-left corner at its position. */
  function PlayerRect(p: Player): Rect {
    CreateRect(p.position, p.width, p.height)
  }

  /** The whole box lies inside the play area. */
  predicate InPlayArea(p: Player) {
    0.0 <= p.position.x <= GameWidth - p.width && 0.0 <= p.position.y <= GameHeight - p.height
  }

  /** A fresh player: full health, no score, ready to fire, centred near the bottom of the play area. */
  function NewPlayer(): (p: Player)
    ensures p.attributes.health == PlayerInitialHealth && p.attributes.score == 0
    ensures p.attributes.bulletCd == 0.0 && p.attributes.maxBulletCd == PlayerBulletCooldown
    ensures p.attributes.speed == PlayerSpeed
    ensures p.width == PlayerWidth && p.height == PlayerHeight
    ensures p.position.x + p.width / 2.0 == GameWidth / 2.0
    ensures GameHeight - (p.position.y + p.height) == PlayerStartGap
    ensures InPlayArea(p)
  {
    Player(Vector2((GameWidth - PlayerWidth) / 2.0, GameHeight - PlayerHeight - PlayerStartGap),
           PlayerWidth, PlayerHeight,
           Attribute(PlayerInitialHealth, 0, PlayerSpeed, PlayerBulletCooldown, 0.0))
  }

  /** Makes the player exist with fresh state, whatever was there before. */
  function CreatePlayer(slot: PlayerSlot): (r: PlayerSlot)
    ensures r.hasPlayer && r.player == NewPlayer()
  {
    PlayerSlot(true, NewPlayer())
  }

  /** The player if it exists (the source returns a null pointer otherwise). */
  function GetPlayer(slot: PlayerSlot): (r: Option<Player>)
    ensures r.Some? <==> slot.hasPlayer
    ensures r.Some? ==> r.value == slot.player
  {
    if slot.hasPlayer then Some(slot.player) else None
  }

  /** Clears the exists flag; the stale record stays behind. */
  function DestroyPlayer(slot: PlayerSlot): (r: PlayerSlot)
    ensures GetPlayer(r).None?
    ensures r.player == slot.player
  {
    slot.(hasPlayer := false)
  }

  /** Creating after destroying yields the same fresh player as creating at once. */
  lemma DestroyThenCreate(slot: PlayerSlot)
    ensures GetPlayer(CreatePlayer(DestroyPlayer(slot))) == Some(NewPlayer())
  {
  }

  predicate UpHeld(input: Input.InputState)
    requires Input.Valid(input)
  {
    Input.IsKeyDown(input, Input.ScancodeW) || Input.IsKeyDown(input, Input.ScancodeUp)
  }

  predicate DownHeld(input: Input.InputState)
    requires Input.Valid(input)
  {
    Input.IsKeyDown(input, Input.ScancodeS) || Input.IsKeyDown(input, Input.ScancodeDown)
  }

  predicate LeftHeld(input: Input.InputState)
    requires Input.Valid(input)
  {
    Input.IsKeyDown(input, Input.ScancodeA) || Input.IsKeyDown(input, Input.ScancodeLeft)
  }

  predicate RightHeld(input: Input.InputState)
    requires Input.Valid(input)
  {
    Input.IsKeyDown(input, Input.ScancodeD) || Input.IsKeyDown(input, Input.ScancodeRight)
  }

  /**
   The raw movement direction before normalisation: each axis is -1, 0 or 1,
   negative exactly when only its negative key is held, and opposite keys cancel.
   */
  function Direction(input: Input.InputState): (d: Vector2)
    requires Input.Valid(input)
    ensures d.x in {-1.0, 0.0, 1.0} && d.y in {-1.0, 0.0, 1.0}
    ensures d.y < 0.0 <==> UpHeld(input) && !DownHeld(input)
    ensures d.y > 0.0 <==> DownHeld(input) && !UpHeld(input)
    ensures d.x < 0.0 <==> LeftHeld(input) && !RightHeld(input)
    ensures d.x > 0.0 <==> RightHeld(input) && !LeftHeld(input)
  {
    var dy := (if UpHeld(input) then -1.0 else 0.0) + (if DownHeld(input) then 1.0 else 0.0);
    var dx := (if LeftHeld(input) then -1.0 else 0.0) + (if RightHeld(input) then 1.0 else 0.0);
    Vector2(dx, dy)
  }

  /**
   One frame of player movement. `unit` stands for the normalised direction,
   which is the zero vector when no key moves the player.
   */
  function UpdatePlayer(slot: PlayerSlot, input: Input.InputState, unit: Vector2, deltaTime: real): (r: PlayerSlot)
    requires Input.Valid(input)
    requires Direction(input) == Origin ==> unit == Origin
    ensures !slot.hasPlayer ==> r == slot
    ensures r.hasPlayer == slot.hasPlayer
    ensures slot.hasPlayer ==>
      var p := slot.player;
      var q := r.player;
      && q.width == p.width && q.height == p.height
      && q.attributes.health == p.attributes.health && q.attributes.score == p.attributes.score
      && q.attributes.speed == p.attributes.speed && q.attributes.maxBulletCd == p.attributes.maxBulletCd
    ensures slot.hasPlayer && slot.player.width <= GameWidth && slot.player.height <= GameHeight ==>
      InPlayArea(r.player)
    ensures slot.hasPlayer && Direction(input) == Origin && InPlayArea(slot.player) ==>
      r.player.position == slot.player.position
    ensures slot.hasPlayer && slot.player.attributes.bulletCd > 0.0 ==>
      r.player.attributes.bulletCd == slot.player.attributes.bulletCd - deltaTime
    ensures slot.hasPlayer && slot.player.attributes.bulletCd <= 0.0 ==>
      r.player.attributes.bulletCd == slot.player.attributes.bulletCd
  {
    if !slot.hasPlayer then slot
    else
      var p := slot.player;
      var step := p.attributes.speed * deltaTime;
      var x := Clamp(p.position.x + unit.x * step, 0.0, GameWidth - p.width);
      var y := Clamp(p.position.y + unit.y * step, 0.0, GameHeight - p.height);
      var cd := if p.attributes.bulletCd > 0.0 then p.attributes.bulletCd - deltaTime else p.attributes.bulletCd;
      slot.(player := p.(position := Vector2(x, y), attributes := p.attributes.(bulletCd := cd)))
  }
}
