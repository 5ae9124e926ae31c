/**
 The enemy store: a list of enemies plus the time of the last spawn. Each
 enemy carries an `id`, which stands for the pointer identity the store uses
 to find and destroy a particular enemy; `nextId` is the id the next enemy
 gets, so ids are never reused.
 */
module Enemies {
  import opened Types
  import opened Geometry
  import opened Config
  import opened Options
  import opened Seqs

  datatype Enemy = Enemy(id: nat, position: Vector2, width: real, height: real, attributes: Attribute)

  datatype EnemyStore = EnemyStore(enemies: seq<Enemy>, lastSpawnTime: real, nextId: nat)

  function EnemyRect(e: Enemy): Rect {
    CreateRect(e.position, e.width, e.height)
  }

  /** No two entries of the list are the same enemy. */
  predicate UniqueIds(es: seq<Enemy>) {
    forall i, j :: 0 <= i < j < |es| ==> es[i].id != es[j].id
  }

  /** The identities of the enemies, in list order. */
  function Ids(es: seq<Enemy>): (r: seq<nat>)
    ensures |r| == |es| && forall i :: 0 <= i < |es| ==> r[i] == es[i].id
  {
    seq(|es|, i requires 0 <= i < |es| => es[i].id)
  }

  /** Every id in the list is distinct and below the next id to be handed out. */
  predicate Valid(store: EnemyStore) {
    UniqueIds(store.enemies) && forall e :: e in store.enemies ==> e.id < store.nextId
  }

  /** The store before the first update: empty, last spawn at time zero. */
  function InitialStore(): (store: EnemyStore)
    ensures Valid(store) && |store.enemies| == 0 && store.lastSpawnTime == 0.0
  {
    EnemyStore([], 0.0, 0)
  }

  /** Appends one standard enemy with its top-left corner at `(x, y)`. */
  function CreateEnemy(store: EnemyStore, x: real, y: real): (r: EnemyStore)
    ensures |r.enemies| == |store.enemies| + 1 && r.enemies[..|store.enemies|] == store.enemies
    ensures var e := r.enemies[|store.enemies|];
      && e.position == Vector2(x, y) && e.width == EnemyWidth && e.height == EnemyHeight
      && e.attributes == Attribute(EnemyHealth, EnemyScore, EnemySpeed, 0.0, 0.0)
    ensures r.lastSpawnTime == store.lastSpawnTime
    ensures Valid(store) ==> Valid(r)
  {
    var e := Enemy(store.nextId, Vector2(x, y), EnemyWidth, EnemyHeight,
                   Attribute(EnemyHealth, EnemyScore, EnemySpeed, 0.0, 0.0));
    EnemyStore(store.enemies + [e], store.lastSpawnTime, store.nextId + 1)
  }

  /** Spawns an enemy above the play area at a random column that keeps it fully on screen. */
  function CreateRandomEnemy(store: EnemyStore, roll: real): (r: EnemyStore)
    requires 0.0 <= roll <= 1.0
    ensures |r.enemies| == |store.enemies| + 1 && r.enemies[..|store.enemies|] == store.enemies
    ensures var e := r.enemies[|store.enemies|];
      && e.position.y == EnemySpawnY
      && EnemySpawnInset <= e.position.x <= GameWidth - EnemyWidth - EnemySpawnInset
      && 0.0 <= e.position.x && e.position.x + e.width <= GameWidth
    ensures Valid(store) ==> Valid(r)
  {
    CreateEnemy(store, RandomDouble(EnemySpawnInset, GameWidth - EnemyWidth - EnemySpawnInset, roll), EnemySpawnY)
  }

  /** Read access to the list (the source hands out a copy). */
  function GetEnemies(store: EnemyStore): seq<Enemy> {
    store.enemies
  }

  /** The test `std::find` applies: is this the enemy with the given identity? */
  function HasId(id: nat): Enemy -> bool {
    (e: Enemy) => e.id == id
  }

  function LacksId(id: nat): Enemy -> bool {
    (e: Enemy) => e.id != id
  }

  /**
   Removes the first entry with identity `id` (the entry `std::find` locates)
   and keeps the rest in order; does nothing if there is none.
   */
  function DestroyEnemy(es: seq<Enemy>, id: nat): (r: seq<Enemy>)
    ensures FirstIndex(es, HasId(id)).None? ==> r == es
    ensures FirstIndex(es, HasId(id)).Some? ==>
      var k := FirstIndex(es, HasId(id)).value;
      r == es[..k] + es[k + 1..]
    decreases |es|
  {
    if |es| == 0 then []
    else if es[0].id == id then es[1..]
    else [es[0]] + DestroyEnemy(es[1..], id)
  }

  /**
   With unique ids, destroying an enemy removes exactly the entries with that
   identity and keeps everything else in order.
   */
  lemma {:induction false} DestroyEnemyIsFilter(es: seq<Enemy>, id: nat)
    requires UniqueIds(es)
    ensures DestroyEnemy(es, id) == Filter(es, LacksId(id))
    decreases |es|
  {
    if |es| > 0 {
      var rest := es[1..];
      FilterCons(es, LacksId(id));
      if es[0].id == id {
        forall i | 0 <= i < |rest| ensures LacksId(id)(rest[i]) {
          assert rest[i] == es[i + 1];
        }
        FilterAllKept(rest, LacksId(id));
      } else {
        assert UniqueIds(rest) by {
          forall i, j | 0 <= i < j < |rest| ensures rest[i].id != rest[j].id {
            assert rest[i] == es[i + 1] && rest[j] == es[j + 1];
          }
        }
        DestroyEnemyIsFilter(rest, id);
      }
    }
  }

  /** With distinct ids, the search by identity finds exactly the entry that carries it. */
  lemma FindsById(es: seq<Enemy>, i: nat)
    requires UniqueIds(es) && i < |es|
    ensures FirstIndex(es, HasId(es[i].id)) == Some(i)
    ensures DestroyEnemy(es, es[i].id) == es[..i] + es[i + 1..]
  {
    assert HasId(es[i].id)(es[i]);
  }

  /** A filtered list of distinct enemies is still distinct, and holds no new enemy. */
  lemma FilterKeepsUniqueIds(es: seq<Enemy>, keep: Enemy -> bool)
    requires UniqueIds(es)
    ensures UniqueIds(Filter(es, keep))
    ensures forall e :: e in Filter(es, keep) ==> e in es
  {
    FilterKeepsOrder(es, keep);
    FilterMembership(es, keep);
    var idx := KeptIndices(es, keep);
    var f := Filter(es, keep);
    forall i, j | 0 <= i < j < |f|
      ensures f[i].id != f[j].id
    {
      assert idx[i] < idx[j];
    }
  }

  /** Removes every enemy; the spawn timer and the id counter are kept. */
  function DestroyEnemies(store: EnemyStore): (r: EnemyStore)
    ensures |r.enemies| == 0
    ensures r.lastSpawnTime == store.lastSpawnTime && r.nextId == store.nextId
    ensures Valid(r)
  {
    store.(enemies := [])
  }

  /** One frame of travel: straight down by `speed * deltaTime`, nothing else changes. */
  function MoveEnemy(e: Enemy, deltaTime: real): (r: Enemy)
    ensures r.position.x == e.position.x && r.position.y - e.position.y == e.attributes.speed * deltaTime
    ensures r.id == e.id && r.width == e.width && r.height == e.height && r.attributes == e.attributes
  {
    e.(position := e.position.(y := e.position.y + e.attributes.speed * deltaTime))
  }

  function Descender(deltaTime: real): Enemy -> Enemy {
    e => MoveEnemy(e, deltaTime)
  }

  /** An enemy is kept until its top edge is more than the cull margin below the play area. */
  predicate InField(e: Enemy) {
    !(e.position.y > GameHeight + EnemyCullMargin)
  }

  /** The spawn timer fires strictly after the interval has elapsed. */
  predicate SpawnDue(store: EnemyStore, now: real) {
    now - store.lastSpawnTime > EnemySpawnInterval
  }

  /**
   The spawning half of an update: an `if`, not a loop, so at most one enemy
   is added however long the gap; the timer restarts at `now`.
   */
  function Spawn(store: EnemyStore, now: real, roll: real): (r: EnemyStore)
    requires 0.0 <= roll <= 1.0
    ensures SpawnDue(store, now) ==> |r.enemies| == |store.enemies| + 1 && r.lastSpawnTime == now
    ensures !SpawnDue(store, now) ==> r == store
    ensures r.enemies[..|store.enemies|] == store.enemies
    ensures Valid(store) ==> Valid(r)
  {
    if SpawnDue(store, now) then CreateRandomEnemy(store, roll).(lastSpawnTime := now) else store
  }

  /** Moving every enemy keeps the identities, so the ids stay distinct. */
  lemma MovedIds(es: seq<Enemy>, deltaTime: real)
    requires UniqueIds(es)
    ensures UniqueIds(MapSeq(es, Descender(deltaTime)))
    ensures forall e :: e in MapSeq(es, Descender(deltaTime)) ==> exists d :: d in es && d.id == e.id
  {
    var moved := MapSeq(es, Descender(deltaTime));
    forall e | e in moved
      ensures exists d :: d in es && d.id == e.id
    {
      var i :| 0 <= i < |moved| && moved[i] == e;
      assert es[i] in es;
    }
  }

  /**
   One frame of enemies: maybe spawn one (`now` is the game clock, `roll` the
   random draw), then move every enemy and drop the ones that left the play
   area. The survivors are exactly the moved enemies still in the field, in
   their original order; at most one enemy is added and identities stay
   distinct.
   */
  function NextStore(store: EnemyStore, now: real, roll: real, deltaTime: real): (r: EnemyStore)
    requires 0.0 <= roll <= 1.0
    ensures |r.enemies| <= |store.enemies| + 1
    ensures r.lastSpawnTime == (if SpawnDue(store, now) then now else store.lastSpawnTime)
    ensures forall e :: e in r.enemies <==>
      InField(e) && exists d :: d in Spawn(store, now, roll).enemies && e == MoveEnemy(d, deltaTime)
    ensures Valid(store) ==> Valid(r)
  {
    var spawned := Spawn(store, now, roll);
    var moved := MapSeq(spawned.enemies, Descender(deltaTime));
    MovedMembership(spawned.enemies, deltaTime);
    FilterMembership(moved, InField);
    var r := spawned.(enemies := Filter(moved, InField));
    assert Valid(store) ==> Valid(r) by {
      if Valid(store) {
        MovedIds(spawned.enemies, deltaTime);
        FilterKeepsUniqueIds(moved, InField);
      }
    }
    r
  }

  /** A moved enemy is in the moved list exactly when it is the move of some original enemy. */
  lemma MovedMembership(es: seq<Enemy>, deltaTime: real)
    ensures forall e :: e in MapSeq(es, Descender(deltaTime)) <==> exists d :: d in es && e == MoveEnemy(d, deltaTime)
  {
    var moved := MapSeq(es, Descender(deltaTime));
    forall e | e in moved
      ensures exists d :: d in es && e == MoveEnemy(d, deltaTime)
    {
      var i :| 0 <= i < |moved| && moved[i] == e;
      assert es[i] in es;
    }
    forall d | d in es
      ensures MoveEnemy(d, deltaTime) in moved
    {
      var i :| 0 <= i < |es| && es[i] == d;
      assert moved[i] == MoveEnemy(d, deltaTime);
    }
  }

  /**
   The enemy update as the game runs it: the spawn check, then the index loop
   that moves each enemy in place and erases it, without advancing, once it
   has left the play area.
   */
  method UpdateEnemies(store: EnemyStore, now: real, roll: real, deltaTime: real) returns (r: EnemyStore)
    requires 0.0 <= roll <= 1.0
    ensures r == NextStore(store, now, roll, deltaTime)
  {
    var spawned := Spawn(store, now, roll);
    var moved := StepAndCull(spawned.enemies, Descender(deltaTime), InField);
    r := spawned.(enemies := moved);
  }
}
