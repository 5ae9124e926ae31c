/**
 The game scene of the scene-manager build: loading and unloading, the
 ESC key, and a second, snapshot-based version of the two collision passes.
 Here the player/enemy pass takes at most one hit per frame and only
 requests the start scene on death; the bullet/enemy pass walks a copy of
 the bullet list and a local copy of the enemy list whose entries share
 their enemy objects with the store.
 */
module GameScene {
  import opened Types
  import opened Geometry
  import opened Options
  import opened Seqs
  import opened Players
  import opened Bullets
  import opened Enemies
  import opened Core
  import Input
  import Scenes

  /** Loading the game scene: a fresh player and no enemies or bullets, the same state as the core's reset. */
  function LoadScene(w: World): (r: World)
    ensures GetPlayer(r.slot) == Some(NewPlayer()) && |r.store.enemies| == 0 && |r.bullets| == 0
    ensures r == ResetGame(w)
    ensures Consistent(r)
  {
    World(CreatePlayer(w.slot), DestroyEnemies(w.store), ClearBullets(w.bullets))
  }

  /** Unloading the game scene: no player and no enemies or bullets, the same state as the core's shutdown. */
  function UnloadScene(w: World): (r: World)
    ensures GetPlayer(r.slot).None? && |r.store.enemies| == 0 && |r.bullets| == 0
    ensures r == GameShutdown(w)
    ensures Consistent(r)
  {
    GameShutdown(w)
  }

  /** ESC requests the start scene; nothing else changes, and without ESC nothing changes at all. */
  function ProcessUiInput(s: Scenes.SceneState, escapeDown: bool): (r: Scenes.SceneState)
    ensures r.current == s.current
    ensures escapeDown ==> r.pending == Scenes.StartScene
    ensures !escapeDown ==> r == s
  {
    if escapeDown then Scenes.ChangeScene(s, Scenes.StartScene) else s
  }

  // ---------------------------------------------------------------------------
  // Player against enemies, first hit only
  // ---------------------------------------------------------------------------

  /**
   The snapshot player/enemy pass: the first enemy, in list order, whose box
   overlaps the player's is rammed and destroyed by identity, and the pass
   stops. A death only requests the start scene.
   */
  function RamOnce(w: World, s: Scenes.SceneState): (World, Scenes.SceneState) {
    if !w.slot.hasPlayer then (w, s)
    else
      var p := w.slot.player;
      var es := w.store.enemies;
      match FirstIndex(es, Overlapping(PlayerRect(p)))
      case None => (w, s)
      case Some(k) =>
        var q := Rammed(p, es[k]);
        (w.(slot := w.slot.(player := q), store := w.store.(enemies := DestroyEnemy(es, es[k].id))),
         if q.attributes.health <= 0 then Scenes.ChangeScene(s, Scenes.StartScene) else s)
  }

  /**
   At most one hit per frame: if some enemy overlaps the player, exactly the
   first such enemy is removed, and the player loses one health and gains
   that enemy's score; otherwise nothing changes. The pass never resets the
   game: the player stays, the bullets are untouched, and a death only
   records a request for the start scene.
   */
  lemma RamOnceEffect(w: World, s: Scenes.SceneState)
    requires w.slot.hasPlayer && UniqueIds(w.store.enemies)
    ensures var p, es := w.slot.player, w.store.enemies;
      var (r, t) := RamOnce(w, s);
      match FirstIndex(es, Overlapping(PlayerRect(p)))
      case None => r == w && t == s
      case Some(k) =>
        && r.store.enemies == es[..k] + es[k + 1..]
        && r.slot.hasPlayer && r.bullets == w.bullets && r.store.nextId == w.store.nextId
        && r.slot.player.attributes.health == p.attributes.health - 1
        && r.slot.player.attributes.score == p.attributes.score + es[k].attributes.score
        && r.slot.player.position == p.position
        && t.current == s.current
        && (p.attributes.health - 1 > 0 ==> t == s)
        && (p.attributes.health - 1 <= 0 ==> t.pending == Scenes.StartScene)
  {
    var es := w.store.enemies;
    var f := FirstIndex(es, Overlapping(PlayerRect(w.slot.player)));
    if f.Some? {
      FindsById(es, f.value);
    }
  }

  /**
   The two versions agree while the player is hit at most once and
   survives: then taking only the first hit is the same as taking all of
   them, and no scene change is requested.
   */
  lemma RamOnceAgreesWithCore(w: World, s: Scenes.SceneState)
    requires w.slot.hasPlayer && UniqueIds(w.store.enemies)
    requires |Filter(w.store.enemies, Overlapping(PlayerRect(w.slot.player)))| <= 1
    requires w.slot.player.attributes.health > 1
    ensures RamOnce(w, s) == (PlayerEnemyPass(w), s)
  {
    var p, es := w.slot.player, w.store.enemies;
    var rect := PlayerRect(p);
    RamPassClosedForm(p, rect, es, []);
    FilterSingle(es, Overlapping(rect), Clear(rect));
    assert [] + Filter(es, Clear(rect)) == Filter(es, Clear(rect));
    match FirstIndex(es, Overlapping(rect))
    case None =>
      assert AfterHits(p, []) == p;
    case Some(k) =>
      FindsById(es, k);
      OneHit(p, es[k]);
  }

  /** Taking a list of exactly one hit is ramming that one enemy. */
  lemma OneHit(p: Player, e: Enemy)
    ensures AfterHits(p, [e]) == Rammed(p, e)
  {
    assert TotalScore([e]) == e.attributes.score + TotalScore([]);
  }

  /** The snapshot player/enemy pass as the game scene runs it: a loop over a copy of the enemy list that breaks at the first hit. */
  method CheckCollisionPlayerEnemies(w: World, s: Scenes.SceneState) returns (r: World, t: Scenes.SceneState)
    ensures (r, t) == RamOnce(w, s)
    ensures !w.slot.hasPlayer ==> r == w && t == s
  {
    if !w.slot.hasPlayer {
      return w, s;
    }
    var p := w.slot.player;
    var rect := PlayerRect(p);
    var snapshot := w.store.enemies;
    var i := 0;
    while i < |snapshot|
      invariant 0 <= i <= |snapshot|
      invariant forall j :: 0 <= j < i ==> !Overlapping(rect)(snapshot[j])
    {
      var e := snapshot[i];
      if IsRectRectCollision(rect, EnemyRect(e)) {
        p := Rammed(p, e);
        r := w.(slot := w.slot.(player := p), store := w.store.(enemies := DestroyEnemy(w.store.enemies, e.id)));
        t := if p.attributes.health <= 0 then Scenes.ChangeScene(s, Scenes.StartScene) else s;
        FirstIndexAt(snapshot, Overlapping(rect), i);
        return;
      }
      i := i + 1;
    }
    return w, s;
  }

  // ---------------------------------------------------------------------------
  // Bullets against enemies, with a local enemy list
  // ---------------------------------------------------------------------------

  /** A damaged enemy object seen through every list that points to it: each entry with its identity now reads `d`. */
  function Retouch(es: seq<Enemy>, d: Enemy): (r: seq<Enemy>)
    ensures |r| == |es|
    ensures forall j :: 0 <= j < |es| ==> r[j] == if es[j].id == d.id then d else es[j]
  {
    seq(|es|, j requires 0 <= j < |es| => if es[j].id == d.id then d else es[j])
  }

  /** With distinct ids, changing one enemy object changes exactly its own entry. */
  lemma RetouchAt(es: seq<Enemy>, i: nat, d: Enemy)
    requires UniqueIds(es) && i < |es| && d.id == es[i].id
    ensures Retouch(es, d) == es[i := d]
    ensures UniqueIds(es[i := d])
  {
    var t := es[i := d];
    forall j, l | 0 <= j < l < |t| ensures t[j].id != t[l].id {
      assert t[j].id == es[j].id && t[l].id == es[l].id;
    }
  }

  /**
   One bullet against the local list, as the inner loop runs it: the first
   enemy the bullet touches takes the damage, which every list sees; if its
   health is used up, its score is awarded and it is destroyed in the store
   and erased from the local list. The two lists stay equal, and the step
   is exactly the core's strike.
   */
  method SnapshotStrike(b: Bullet, local: seq<Enemy>, global: seq<Enemy>)
    returns (local': seq<Enemy>, global': seq<Enemy>, gained: int, hit: bool)
    requires global == local && UniqueIds(local)
    ensures global' == local'
    ensures !hit ==> StrikeAt(b, local).Miss? && local' == local && gained == 0
    ensures hit ==> StrikeAt(b, local) == Hit(local', gained)
  {
    var target := FindTarget(b, local);
    if target.None? {
      return local, global, 0, false;
    }
    var i := target.value;
    var d := Damaged(local[i], b.damage);
    RetouchAt(local, i, d);
    global' := Retouch(global, d);
    local' := local[i := d];
    gained := 0;
    if d.attributes.health <= 0 {
      gained := d.attributes.score;
      FindsById(local', i);
      global' := DestroyEnemy(global', d.id);
      assert local'[..i] == local[..i] && local'[i + 1..] == local[i + 1..];
      local' := local'[..i] + local'[i + 1..];
    }
    hit := true;
  }

  /**
   One step of the snapshot pass follows the core's resolution of the same
   bullet: a hit spends the bullet and adds the gain, a miss keeps the
   bullet; the ids stay distinct.
   */
  lemma SnapshotStep(bs: seq<Bullet>, i: nat, local: seq<Enemy>, survivors: seq<Bullet>, score: int, hits: nat,
                     local': seq<Enemy>, survivors': seq<Bullet>, score': int, hits': nat, hit: bool)
    requires i < |bs| && UniqueIds(local)
    requires !hit ==> StrikeAt(bs[i], local).Miss? && local' == local
                      && survivors' == survivors + [bs[i]] && score' == score && hits' == hits
    requires hit ==> StrikeAt(bs[i], local) == Hit(local', score' - score)
                     && survivors' == survivors && hits' == hits + 1
    ensures UniqueIds(local')
    ensures Resolve(bs[i..], local, survivors, score, hits) == Resolve(bs[i + 1..], local', survivors', score', hits')
  {
    var todo := bs[i..];
    assert todo[0] == bs[i] && todo[1..] == bs[i + 1..];
    if hit {
      ResolveHit(todo, local, survivors, score, hits);
      StrikeKeepsUniqueIds(bs[i], local);
    } else {
      ResolveMiss(todo, local, survivors, score, hits);
    }
  }

  /**
   The snapshot bullet/enemy pass as the game scene runs it. Each bullet of
   the copied list is tried against the local enemy list and destroyed after
   a hit; the bullets that hit nothing survive. Because the local list and
   the store share their enemy objects, the pass computes the same world as
   the core's bullet/enemy pass.
   */
  method CheckCollisionBulletsEnemies(w: World) returns (r: World)
    requires UniqueIds(w.store.enemies)
    ensures r == BulletEnemyPass(w)
    ensures !w.slot.hasPlayer ==> r == w
  {
    if !w.slot.hasPlayer {
      return w;
    }
    var snapshot := w.bullets;
    var local, global := w.store.enemies, w.store.enemies;
    var survivors: seq<Bullet> := [];
    var score := w.slot.player.attributes.score;
    ghost var hits: nat := 0;
    ghost var goal := Resolve(snapshot, local, [], score, 0);
    var bi := 0;
    while bi < |snapshot|
      invariant 0 <= bi <= |snapshot|
      invariant global == local && UniqueIds(local)
      invariant Resolve(snapshot[bi..], local, survivors, score, hits) == goal
    {
      var local', global', gained, hit := SnapshotStrike(snapshot[bi], local, global);
      ghost var (local0, survivors0, score0, hits0) := (local, survivors, score, hits);
      if hit {
        score, hits := score + gained, hits + 1;
      } else {
        survivors := survivors + [snapshot[bi]];
      }
      local, global := local', global';
      SnapshotStep(snapshot, bi, local0, survivors0, score0, hits0, local, survivors, score, hits, hit);
      bi := bi + 1;
    }
    var p := w.slot.player;
    r := w.(slot := w.slot.(player := p.(attributes := p.attributes.(score := score))),
            store := w.store.(enemies := global),
            bullets := survivors);
  }

  // ---------------------------------------------------------------------------
  // The game scene's frame
  // ---------------------------------------------------------------------------

  /** What the game scene reads and writes: the world and the scene manager's state. */
  datatype Session = Session(world: World, scenes: Scenes.SceneState)

  /**
   The game scene's part of one frame, in the order the scene manager calls
   it: input (ESC), then collisions (player first, bullets second), then the
   three entity updates. Unlike the core's frame, collisions run BEFORE the
   movement of the same frame.
   */
  function GameSceneFrame(g: Session, escapeDown: bool, input: Input.InputState, unit: Vector2,
                          now: real, roll: real, deltaTime: real): Session
    requires Input.Valid(input)
    requires Direction(input) == Origin ==> unit == Origin
    requires 0.0 <= roll <= 1.0
  {
    var s := ProcessUiInput(g.scenes, escapeDown);
    var (w, t) := RamOnce(g.world, s);
    var w' := BulletEnemyPass(w);
    var slot := UpdatePlayer(w'.slot, input, unit, deltaTime);
    var store := NextStore(w'.store, now, roll, deltaTime);
    var fired := NextBullets(slot, w'.bullets, input, deltaTime);
    Session(World(fired.0, store, fired.1), t)
  }

  /** The snapshot player/enemy pass keeps the world consistent and keeps the player. */
  lemma RamOnceConsistent(w: World, s: Scenes.SceneState)
    requires Consistent(w)
    ensures Consistent(RamOnce(w, s).0)
    ensures RamOnce(w, s).0.slot.hasPlayer == w.slot.hasPlayer
  {
    if w.slot.hasPlayer {
      var es := w.store.enemies;
      var f := FirstIndex(es, Overlapping(PlayerRect(w.slot.player)));
      if f.Some? {
        var id := es[f.value].id;
        DestroyEnemyIsFilter(es, id);
        FilterKeepsUniqueIds(es, LacksId(id));
      }
    }
  }

  /**
   Every game-scene frame keeps the world consistent, and never removes the
   player: a death is left to the scene change the frame requested.
   */
  lemma GameSceneKeepsConsistent(g: Session, escapeDown: bool, input: Input.InputState, unit: Vector2,
                                 now: real, roll: real, deltaTime: real)
    requires Input.Valid(input)
    requires Direction(input) == Origin ==> unit == Origin
    requires 0.0 <= roll <= 1.0
    requires Consistent(g.world)
    ensures Consistent(GameSceneFrame(g, escapeDown, input, unit, now, roll, deltaTime).world)
    ensures GameSceneFrame(g, escapeDown, input, unit, now, roll, deltaTime).world.slot.hasPlayer == g.world.slot.hasPlayer
    ensures GameSceneFrame(g, escapeDown, input, unit, now, roll, deltaTime).scenes.current == g.scenes.current
  {
    var s := ProcessUiInput(g.scenes, escapeDown);
    RamOnceConsistent(g.world, s);
    var w := RamOnce(g.world, s).0;
    BulletEnemyPassConsistent(w);
    var w' := BulletEnemyPass(w);
    var slot := UpdatePlayer(w'.slot, input, unit, deltaTime);
    var store := NextStore(w'.store, now, roll, deltaTime);
    var fired := NextBullets(slot, w'.bullets, input, deltaTime);
    assert Consistent(World(fired.0, store, fired.1));
    if g.world.slot.hasPlayer {
      RamOnceEffect(g.world, s);
    }
  }

  /** The game scene's frame as the scene manager runs it, handler after handler. */
  method GameSceneTick(g: Session, escapeDown: bool, input: Input.InputState, unit: Vector2,
                       now: real, roll: real, deltaTime: real) returns (r: Session)
    requires Input.Valid(input)
    requires Direction(input) == Origin ==> unit == Origin
    requires 0.0 <= roll <= 1.0
    requires Consistent(g.world)
    ensures r == GameSceneFrame(g, escapeDown, input, unit, now, roll, deltaTime)
  {
    var s := ProcessUiInput(g.scenes, escapeDown);
    var w, t := CheckCollisionPlayerEnemies(g.world, s);
    RamOnceConsistent(g.world, s);
    w := CheckCollisionBulletsEnemies(w);
    var slot := UpdatePlayer(w.slot, input, unit, deltaTime);
    var store := UpdateEnemies(w.store, now, roll, deltaTime);
    var slot', bullets := UpdateBullets(slot, w.bullets, input, deltaTime);
    r := Session(World(slot', store, bullets), t);
  }
}
