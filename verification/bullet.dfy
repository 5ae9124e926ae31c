/**
 Player bullets: a value collection that grows by one when the player fires
 and shrinks when a bullet leaves the top of the screen or hits an enemy.
 */
module Bullets {
  import opened Types
  import opened Geometry
  import opened Config
  import opened Seqs
  import opened Players
  import Input

  /** A bullet is a circle (`position` is its centre) that travels upwards at `speed`. */
  datatype Bullet = Bullet(position: Vector2, radius: real, damage: int, speed: real)

  function BulletCircle(b: Bullet): Circle {
    CreateCircle(b.position, b.radius)
  }

  /** Appends one bullet of the standard radius; the bullets already there are untouched. */
  function CreateBullet(bullets: seq<Bullet>, x: real, y: real, damage: int, speed: real): (r: seq<Bullet>)
    ensures |r| == |bullets| + 1 && r[..|bullets|] == bullets
    ensures r[|bullets|].position == Vector2(x, y) && r[|bullets|].radius == BulletRadius
    ensures r[|bullets|].damage == damage && r[|bullets|].speed == speed
  {
    bullets + [Bullet(Vector2(x, y), BulletRadius, damage, speed)]
  }

  function ClearBullets(bullets: seq<Bullet>): (r: seq<Bullet>)
    ensures |r| == 0
  {
    []
  }

  /** Firing is allowed when a player exists, space is held and the cooldown has run out. */
  predicate CanFire(slot: PlayerSlot, input: Input.InputState)
    requires Input.Valid(input)
  {
    slot.hasPlayer && Input.IsKeyDown(input, Input.ScancodeSpace) && slot.player.attributes.bulletCd <= 0.0
  }

  /**
   The firing half of a bullet update: at most one shot, spawned at the
   middle of the player's top edge, which restarts the cooldown.
   */
  function Fire(slot: PlayerSlot, bullets: seq<Bullet>, input: Input.InputState): (r: (PlayerSlot, seq<Bullet>))
    requires Input.Valid(input)
    ensures !CanFire(slot, input) ==> r == (slot, bullets)
    ensures CanFire(slot, input) ==>
      var p, box := slot.player, PlayerRect(slot.player);
      && |r.1| == |bullets| + 1 && r.1[..|bullets|] == bullets
      && r.1[|bullets|].position == Vector2((box.left + box.right) / 2.0, box.top)
      && r.1[|bullets|].radius == BulletRadius
      && r.1[|bullets|].damage == BulletDamage && r.1[|bullets|].speed == BulletSpeed
      && r.0.hasPlayer && r.0.player.attributes.bulletCd == p.attributes.maxBulletCd
      && r.0.player.(attributes := r.0.player.attributes.(bulletCd := p.attributes.bulletCd)) == p
  {
    if CanFire(slot, input) then
      var p := slot.player;
      var bs := CreateBullet(bullets, p.position.x + p.width / 2.0, p.position.y, BulletDamage, BulletSpeed);
      (slot.(player := p.(attributes := p.attributes.(bulletCd := p.attributes.maxBulletCd))), bs)
    else (slot, bullets)
  }

  /** After a shot the cooldown is positive again, so the very next shot has to wait. */
  lemma ShotBlocksNextShot(slot: PlayerSlot, bullets: seq<Bullet>, input: Input.InputState)
    requires Input.Valid(input)
    requires slot.player.attributes.maxBulletCd > 0.0
    requires CanFire(slot, input)
    ensures var r := Fire(slot, bullets, input);
            |r.1| == |bullets| + 1 && !CanFire(r.0, input)
  {
  }

  /** One frame of travel: straight up by `speed * deltaTime`. */
  function MoveBullet(b: Bullet, deltaTime: real): (r: Bullet)
    ensures r.position.x == b.position.x && b.position.y - r.position.y == b.speed * deltaTime
    ensures r.radius == b.radius && r.damage == b.damage && r.speed == b.speed
  {
    b.(position := b.position.(y := b.position.y - b.speed * deltaTime))
  }

  /** `MoveBullet` for a fixed frame time, as a value the sequence helpers can apply. */
  function Mover(deltaTime: real): Bullet -> Bullet {
    b => MoveBullet(b, deltaTime)
  }

  /** A bullet is kept until its whole circle is above the top of the screen. */
  predicate OnScreen(b: Bullet) {
    !(b.position.y + b.radius < 0.0)
  }

  /**
   One frame of bullets: fire first, then move every bullet, including one
   just fired, and drop the ones that left the screen. The survivors are the
   moved bullets still on screen, in their original order; at most one
   bullet is added.
   */
  function NextBullets(slot: PlayerSlot, bullets: seq<Bullet>, input: Input.InputState, deltaTime: real): (r: (PlayerSlot, seq<Bullet>))
    requires Input.Valid(input)
    ensures r.0 == Fire(slot, bullets, input).0
    ensures |r.1| <= |bullets| + 1
    ensures forall b :: b in r.1 <==>
      OnScreen(b) && exists a :: a in Fire(slot, bullets, input).1 && b == MoveBullet(a, deltaTime)
  {
    var fired := Fire(slot, bullets, input);
    MovedMembership(fired.1, deltaTime);
    FilterMembership(MapSeq(fired.1, Mover(deltaTime)), OnScreen);
    (fired.0, Filter(MapSeq(fired.1, Mover(deltaTime)), OnScreen))
  }

  /**
   The bullet update as the game runs it: firing, then the index loop that
   moves each bullet in place and erases it, without advancing, once it is
   off screen.
   */
  method UpdateBullets(slot: PlayerSlot, bullets: seq<Bullet>, input: Input.InputState, deltaTime: real)
    returns (slot': PlayerSlot, bullets': seq<Bullet>)
    requires Input.Valid(input)
    ensures (slot', bullets') == NextBullets(slot, bullets, input, deltaTime)
  {
    var fired := Fire(slot, bullets, input);
    slot' := fired.0;
    bullets' := StepAndCull(fired.1, Mover(deltaTime), OnScreen);
  }

  /** A moved bullet is in the moved list exactly when it is the move of some original bullet. */
  lemma MovedMembership(bullets: seq<Bullet>, deltaTime: real)
    ensures forall b :: b in MapSeq(bullets, Mover(deltaTime)) <==> exists a :: a in bullets && b == MoveBullet(a, deltaTime)
  {
    var moved := MapSeq(bullets, Mover(deltaTime));
    forall b | b in moved
      ensures exists a :: a in bullets && b == MoveBullet(a, deltaTime)
    {
      var i :| 0 <= i < |moved| && moved[i] == b;
      assert bullets[i] in bullets;
    }
    forall a | a in bullets
      ensures MoveBullet(a, deltaTime) in moved
    {
      var i :| 0 <= i < |bullets| && bullets[i] == a;
      assert moved[i] == MoveBullet(a, deltaTime);
    }
  }
}
