/**
 The per-frame simulation of the game core: the three entity updates, then
 the player/enemy collision pass, then the bullet/enemy collision pass. Each
 collision pass is given twice: as a front-to-back function over the list it
 walks (the reference), and as the index loop the game runs, which erases
 elements while iterating and is proved equal to the reference.
 */
module Core {
  import opened Types
  import opened Geometry
  import opened Config
  import opened Options
  import opened Seqs
  import opened Players
  import opened Bullets
  import opened Enemies
  import Input

  /** Everything one frame reads and writes: the player slot, the enemy store and the bullets. */
  datatype World = World(slot: PlayerSlot, store: EnemyStore, bullets: seq<Bullet>)

  /**
   What holds between frames: enemy identities are distinct and were handed
   out by the store, every enemy is in the field, every bullet is on screen,
   and the player, if there is one, is inside the play area.
   */
  predicate Consistent(w: World) {
    && Valid(w.store)
    && (forall e :: e in w.store.enemies ==> InField(e))
    && (forall b :: b in w.bullets ==> OnScreen(b))
    && (w.slot.hasPlayer ==> InPlayArea(w.slot.player))
  }

  /**
   The game after a death: a fresh player, no enemies and no bullets. Whatever
   score the dead player had is discarded with it.
   */
  function ResetGame(w: World): (r: World)
    ensures GetPlayer(r.slot) == Some(NewPlayer())
    ensures |r.store.enemies| == 0 && |r.bullets| == 0
    ensures r.store.lastSpawnTime == w.store.lastSpawnTime && r.store.nextId == w.store.nextId
    ensures Consistent(r)
  {
    World(CreatePlayer(w.slot), DestroyEnemies(w.store), ClearBullets(w.bullets))
  }

  /** Sum of the score attributes of a list of enemies. */
  function TotalScore(es: seq<Enemy>): int
    decreases |es|
  {
    if |es| == 0 then 0 else es[0].attributes.score + TotalScore(es[1..])
  }

  lemma {:induction false} TotalScoreAppend(a: seq<Enemy>, b: seq<Enemy>)
    ensures TotalScore(a + b) == TotalScore(a) + TotalScore(b)
    decreases |a|
  {
    if |a| > 0 {
      assert (a + b)[1..] == a[1..] + b;
      TotalScoreAppend(a[1..], b);
    } else {
      assert a + b == b;
    }
  }

  // ---------------------------------------------------------------------------
  // Player against enemies
  // ---------------------------------------------------------------------------

  /** Does the enemy's box overlap the given (player) box? */
  function Overlapping(rect: Rect): Enemy -> bool {
    e => IsRectRectCollision(rect, EnemyRect(e))
  }

  function Clear(rect: Rect): Enemy -> bool {
    e => !IsRectRectCollision(rect, EnemyRect(e))
  }

  /** The player after ramming one enemy: one health lost, the enemy's score gained. */
  function Rammed(p: Player, e: Enemy): (q: Player)
    ensures q.attributes.health == p.attributes.health - 1
    ensures q.attributes.score == p.attributes.score + e.attributes.score
    ensures q.position == p.position && q.width == p.width && q.height == p.height
  {
    p.(attributes := p.attributes.(health := p.attributes.health - 1,
                                   score := p.attributes.score + e.attributes.score))
  }

  /** How a player/enemy pass ends: the player survives with the enemies left over, or dies. */
  datatype Ram = Survived(player: Player, enemies: seq<Enemy>) | Died

  /**
   The player/enemy pass as a walk over the enemies not yet visited. `kept`
   holds the enemies already passed over; the player's box is fixed for the
   whole pass, because nothing in it moves the player.
   */
  function RamPass(p: Player, rect: Rect, es: seq<Enemy>, kept: seq<Enemy>): Ram
    decreases |es|
  {
    if |es| == 0 then Survived(p, kept)
    else if IsRectRectCollision(rect, EnemyRect(es[0])) then
      var q := Rammed(p, es[0]);
      if q.attributes.health <= 0 then Died else RamPass(q, rect, es[1..], kept)
    else RamPass(p, rect, es[1..], kept + [es[0]])
  }

  /** The player after taking every hit in `hits` without dying. */
  function AfterHits(p: Player, hits: seq<Enemy>): Player {
    p.(attributes := p.attributes.(health := p.attributes.health - |hits|,
                                   score := p.attributes.score + TotalScore(hits)))
  }

  /**
   The pass in closed form. With `hits` the overlapping enemies: the player
   dies exactly when there is a hit and the hits use up all its health;
   otherwise it loses one health per hit, gains the score of every enemy it
   hit, and the enemies it did not touch remain, in their original order.
   */
  lemma {:induction false} RamPassClosedForm(p: Player, rect: Rect, es: seq<Enemy>, kept: seq<Enemy>)
    ensures var hits := Filter(es, Overlapping(rect));
      RamPass(p, rect, es, kept)
        == if |hits| > 0 && p.attributes.health <= |hits| then Died
           else Survived(AfterHits(p, hits), kept + Filter(es, Clear(rect)))
    decreases |es|
  {
    if |es| == 0 {
      assert kept + [] == kept;
    } else {
      var e, rest := es[0], es[1..];
      FilterCons(es, Overlapping(rect));
      FilterCons(es, Clear(rect));
      var hits := Filter(rest, Overlapping(rect));
      if IsRectRectCollision(rect, EnemyRect(e)) {
        var q := Rammed(p, e);
        if q.attributes.health > 0 {
          RamPassClosedForm(q, rect, rest, kept);
          assert Filter(es, Overlapping(rect)) == [e] + hits;
          assert Filter(es, Clear(rect)) == Filter(rest, Clear(rect));
          assert ([e] + hits)[1..] == hits;
        }
      } else {
        RamPassClosedForm(p, rect, rest, kept + [e]);
        assert Filter(es, Overlapping(rect)) == hits;
        assert Filter(es, Clear(rect)) == [e] + Filter(rest, Clear(rect));
        assert kept + [e] + Filter(rest, Clear(rect)) == kept + ([e] + Filter(rest, Clear(rect)));
      }
    }
  }

  /** The player/enemy pass on a whole world: a death resets the game, otherwise the player and enemies are updated. */
  function PlayerEnemyPass(w: World): World {
    if !w.slot.hasPlayer then w
    else
      var p := w.slot.player;
      match RamPass(p, PlayerRect(p), w.store.enemies, [])
      case Died => ResetGame(w)
      case Survived(q, es) => w.(slot := w.slot.(player := q), store := w.store.(enemies := es))
  }

  /**
   The player/enemy pass as the game runs it: the index is not advanced after
   an erase, and the pass returns as soon as a hit leaves the player with no
   health, after resetting the game.
   */
  method CheckCollisionPlayerEnemies(w: World) returns (r: World)
    ensures r == PlayerEnemyPass(w)
    ensures !w.slot.hasPlayer ==> r == w
    ensures w.slot.hasPlayer ==>
      var p := w.slot.player;
      var hits := Filter(w.store.enemies, Overlapping(PlayerRect(p)));
      if |hits| > 0 && p.attributes.health <= |hits| then r == ResetGame(w)
      else r == w.(slot := w.slot.(player := AfterHits(p, hits)),
                   store := w.store.(enemies := Filter(w.store.enemies, Clear(PlayerRect(p)))))
  {
    if !w.slot.hasPlayer {
      return w;
    }
    var p := w.slot.player;
    var rect := PlayerRect(p);
    var es := w.store.enemies;
    RamPassClosedForm(p, rect, es, []);
    var i := 0;
    while i < |es|
      invariant 0 <= i <= |es|
      invariant RamPass(p, rect, es[i..], es[..i]) == RamPass(w.slot.player, rect, w.store.enemies, [])
      decreases |es| - i
    {
      assert es[i..][1..] == es[i + 1..];
      if IsRectRectCollision(rect, EnemyRect(es[i])) {
        ghost var done, rest := es[..i], es[i + 1..];
        p := Rammed(p, es[i]);
        es := es[..i] + es[i + 1..];
        assert es[..i] == done && es[i..] == rest;
        if p.attributes.health <= 0 {
          return ResetGame(w);
        }
        continue;
      }
      assert es[..i + 1] == es[..i] + [es[i]];
      i := i + 1;
    }
    assert es[..i] + [] == es;
    r := w.(slot := w.slot.(player := p), store := w.store.(enemies := es));
  }

  // ---------------------------------------------------------------------------
  // Bullets against enemies
  // ---------------------------------------------------------------------------

  /** Does the bullet's circle touch the enemy's box? */
  function HitBy(b: Bullet): Enemy -> bool {
    e => IsRectCircleCollision(EnemyRect(e), BulletCircle(b))
  }

  /** The enemy after taking `damage`: only its health changes. */
  function Damaged(e: Enemy, damage: int): (d: Enemy)
    ensures d.attributes.health == e.attributes.health - damage
    ensures d.attributes.score == e.attributes.score
    ensures d.id == e.id && EnemyRect(d) == EnemyRect(e) && InField(d) == InField(e)
  {
    e.(attributes := e.attributes.(health := e.attributes.health - damage))
  }

  /** The index of the first enemy the bullet touches, if any, searching from the front. */
  function Target(b: Bullet, es: seq<Enemy>): (r: Option<nat>)
    ensures r.Some? ==> r.value < |es|
    decreases |es|
  {
    if |es| == 0 then None
    else if IsRectCircleCollision(EnemyRect(es[0]), BulletCircle(b)) then Some(0)
    else match Target(b, es[1..])
      case None => None
      case Some(k) => Some(k + 1)
  }

  /** The search finds the lowest index of an enemy the bullet touches. */
  lemma {:induction false} TargetIsFirst(b: Bullet, es: seq<Enemy>)
    ensures Target(b, es) == FirstIndex(es, HitBy(b))
    decreases |es|
  {
    if |es| > 0 {
      TargetIsFirst(b, es[1..]);
    }
  }

  /** What one bullet does: nothing, or a hit that leaves these enemies and awards this much score. */
  datatype Strike = Miss | Hit(enemies: seq<Enemy>, gained: int)

  /** The bullet touches none of the enemies. */
  predicate MissesAll(b: Bullet, es: seq<Enemy>) {
    forall i :: 0 <= i < |es| ==> !HitBy(b)(es[i])
  }

  /**
   One bullet against the current enemies: a miss when it touches none of
   them (see `StrikeMisses`); otherwise it strikes the lowest-index enemy it
   touches (see `StrikeEffect`).
   */
  function StrikeAt(b: Bullet, es: seq<Enemy>): Strike {
    match Target(b, es)
    case None => Miss
    case Some(k) =>
      var d := Damaged(es[k], b.damage);
      if d.attributes.health <= 0 then Hit(es[..k] + es[k + 1..], d.attributes.score)
      else Hit(es[k := d], 0)
  }

  /** The bullet misses exactly when it touches none of the enemies. */
  lemma StrikeMisses(b: Bullet, es: seq<Enemy>)
    ensures StrikeAt(b, es).Miss? <==> MissesAll(b, es)
  {
    TargetIsFirst(b, es);
  }

  /**
   A strike hits only the lowest-index enemy the bullet touches. That enemy
   loses exactly the bullet's damage; it is removed, and its score awarded,
   only if that leaves it without health, otherwise it stays in place. No
   other enemy changes.
   */
  lemma StrikeEffect(b: Bullet, es: seq<Enemy>) returns (k: nat)
    requires StrikeAt(b, es).Hit?
    ensures k < |es| && HitBy(b)(es[k]) && forall j :: 0 <= j < k ==> !HitBy(b)(es[j])
    ensures var r, d := StrikeAt(b, es), Damaged(es[k], b.damage);
      && (d.attributes.health <= 0 ==> r.enemies == es[..k] + es[k + 1..] && r.gained == es[k].attributes.score)
      && (d.attributes.health > 0 ==> r.enemies == es[k := d] && r.gained == 0)
  {
    TargetIsFirst(b, es);
    k := Target(b, es).value;
  }

  /** The outcome of a bullet pass: surviving bullets, remaining enemies, the player's score and the number of hits. */
  datatype Volley = Volley(bullets: seq<Bullet>, enemies: seq<Enemy>, score: int, hits: nat)

  /**
   The bullet/enemy pass as a walk over the bullets not yet visited, in
   order; `kept` holds the bullets that already missed. Each bullet sees the
   enemies as the earlier bullets left them.
   */
  function Resolve(bs: seq<Bullet>, es: seq<Enemy>, kept: seq<Bullet>, score: int, hits: nat): Volley
    decreases |bs|
  {
    if |bs| == 0 then Volley(kept, es, score, hits)
    else match StrikeAt(bs[0], es)
      case Miss => Resolve(bs[1..], es, kept + [bs[0]], score, hits)
      case Hit(left, gained) => Resolve(bs[1..], left, kept, score + gained, hits + 1)
  }

  /** A bullet that misses is kept, behind the bullets kept before it. */
  lemma ResolveMiss(bs: seq<Bullet>, es: seq<Enemy>, kept: seq<Bullet>, score: int, hits: nat)
    requires |bs| > 0 && StrikeAt(bs[0], es).Miss?
    ensures Resolve(bs, es, kept, score, hits) == Resolve(bs[1..], es, kept + [bs[0]], score, hits)
  {
  }

  /** A bullet that strikes is spent: the enemies and the score are updated and one more hit is counted. */
  lemma ResolveHit(bs: seq<Bullet>, es: seq<Enemy>, kept: seq<Bullet>, score: int, hits: nat)
    requires |bs| > 0 && StrikeAt(bs[0], es).Hit?
    ensures var st := StrikeAt(bs[0], es);
      Resolve(bs, es, kept, score, hits) == Resolve(bs[1..], st.enemies, kept, score + st.gained, hits + 1)
  {
  }

  /** Every bullet is either kept or counted as a hit, and enemies are never added. */
  lemma {:induction false} ResolveCounts(bs: seq<Bullet>, es: seq<Enemy>, kept: seq<Bullet>, score: int, hits: nat)
    ensures var v := Resolve(bs, es, kept, score, hits);
      |v.bullets| + v.hits == |kept| + hits + |bs| && |v.enemies| <= |es|
    decreases |bs|
  {
    if |bs| > 0 {
      var st := StrikeAt(bs[0], es);
      var rest := bs[1..];
      if st.Miss? {
        ResolveMiss(bs, es, kept, score, hits);
        ResolveCounts(rest, es, kept + [bs[0]], score, hits);
      } else {
        ResolveHit(bs, es, kept, score, hits);
        StrikeShrinks(bs[0], es);
        ResolveCounts(rest, st.enemies, kept, score + st.gained, hits + 1);
      }
    }
  }

  /** A strike removes at most one enemy and adds none. */
  lemma StrikeShrinks(b: Bullet, es: seq<Enemy>)
    requires StrikeAt(b, es).Hit?
    ensures |es| - 1 <= |StrikeAt(b, es).enemies| <= |es|
  {
  }

  /** Removing the enemy at `k` takes exactly its score out of the total. */
  lemma TotalScoreRemove(es: seq<Enemy>, k: nat)
    requires k < |es|
    ensures TotalScore(es[..k] + es[k + 1..]) == TotalScore(es) - es[k].attributes.score
  {
    TotalScoreAppend(es[..k], es[k + 1..]);
    TotalScoreAppend(es[..k], es[k..]);
    assert es[..k] + es[k..] == es;
    assert es[k..][1..] == es[k + 1..];
  }

  /** Replacing an enemy by one with the same score leaves the total unchanged. */
  lemma TotalScoreReplace(es: seq<Enemy>, k: nat, d: Enemy)
    requires k < |es| && d.attributes.score == es[k].attributes.score
    ensures TotalScore(es[k := d]) == TotalScore(es)
  {
    var t := es[k := d];
    TotalScoreAppend(es[..k], es[k..]);
    TotalScoreAppend(t[..k], t[k..]);
    assert es[..k] + es[k..] == es && t[..k] + t[k..] == t;
    assert t[..k] == es[..k] && t[k..][1..] == es[k..][1..];
  }

  /** A strike moves score from the enemies to the player: the sum of both is unchanged. */
  lemma StrikeKeepsScore(b: Bullet, es: seq<Enemy>)
    requires StrikeAt(b, es).Hit?
    ensures StrikeAt(b, es).gained + TotalScore(StrikeAt(b, es).enemies) == TotalScore(es)
  {
    var k := StrikeEffect(b, es);
    var d := Damaged(es[k], b.damage);
    if d.attributes.health <= 0 {
      TotalScoreRemove(es, k);
    } else {
      TotalScoreReplace(es, k, d);
    }
  }

  /**
   Score is conserved by the bullet pass: what the player gains is exactly
   the score of the enemies that were destroyed.
   */
  lemma {:induction false} ResolveKeepsScore(bs: seq<Bullet>, es: seq<Enemy>, kept: seq<Bullet>, score: int, hits: nat)
    ensures var v := Resolve(bs, es, kept, score, hits);
      v.score + TotalScore(v.enemies) == score + TotalScore(es)
    decreases |bs|
  {
    if |bs| > 0 {
      var st := StrikeAt(bs[0], es);
      var rest := bs[1..];
      if st.Miss? {
        ResolveMiss(bs, es, kept, score, hits);
        ResolveKeepsScore(rest, es, kept + [bs[0]], score, hits);
      } else {
        ResolveHit(bs, es, kept, score, hits);
        StrikeKeepsScore(bs[0], es);
        ResolveKeepsScore(rest, st.enemies, kept, score + st.gained, hits + 1);
      }
    }
  }

  /** Which enemy occupies which box: the identity of every enemy paired with its box. */
  function Marks(es: seq<Enemy>): set<(nat, Rect)> {
    set i | 0 <= i < |es| :: (es[i].id, EnemyRect(es[i]))
  }

  /** Missing every enemy is missing every box they occupy. */
  lemma MissesAllMarks(b: Bullet, es: seq<Enemy>)
    ensures MissesAll(b, es) <==> forall m :: m in Marks(es) ==> !IsRectCircleCollision(m.1, BulletCircle(b))
  {
    if MissesAll(b, es) {
      forall m | m in Marks(es) ensures !IsRectCircleCollision(m.1, BulletCircle(b)) {
        var i :| 0 <= i < |es| && (es[i].id, EnemyRect(es[i])) == m;
        assert !HitBy(b)(es[i]);
      }
    } else {
      var i :| 0 <= i < |es| && HitBy(b)(es[i]);
      assert (es[i].id, EnemyRect(es[i])) in Marks(es);
    }
  }

  /** A strike only removes enemies or lowers their health, so no enemy appears or moves. */
  lemma StrikeKeepsMarks(b: Bullet, es: seq<Enemy>)
    requires StrikeAt(b, es).Hit?
    ensures Marks(StrikeAt(b, es).enemies) <= Marks(es)
  {
    var k := StrikeEffect(b, es);
    var left := StrikeAt(b, es).enemies;
    var d := Damaged(es[k], b.damage);
    forall m | m in Marks(left) ensures m in Marks(es) {
      var i :| 0 <= i < |left| && (left[i].id, EnemyRect(left[i])) == m;
      if d.attributes.health > 0 {
        assert left[i].id == es[i].id && EnemyRect(left[i]) == EnemyRect(es[i]);
      } else if i < k {
        assert left[i] == es[i];
      } else {
        assert left[i] == es[i + 1];
      }
    }
  }

  /** A bullet that misses every enemy also misses any enemies occupying only some of their boxes. */
  lemma MissesFewer(b: Bullet, later: seq<Enemy>, earlier: seq<Enemy>)
    requires Marks(later) <= Marks(earlier) && MissesAll(b, earlier)
    ensures MissesAll(b, later)
  {
    MissesAllMarks(b, earlier);
    MissesAllMarks(b, later);
  }

  /** The pass creates no enemy and moves none. */
  lemma {:induction false} ResolveKeepsMarks(bs: seq<Bullet>, es: seq<Enemy>, kept: seq<Bullet>, score: int, hits: nat)
    ensures Marks(Resolve(bs, es, kept, score, hits).enemies) <= Marks(es)
    decreases |bs|
  {
    if |bs| > 0 {
      var st := StrikeAt(bs[0], es);
      var rest := bs[1..];
      if st.Miss? {
        ResolveMiss(bs, es, kept, score, hits);
        ResolveKeepsMarks(rest, es, kept + [bs[0]], score, hits);
      } else {
        ResolveHit(bs, es, kept, score, hits);
        StrikeKeepsMarks(bs[0], es);
        ResolveKeepsMarks(rest, st.enemies, kept, score + st.gained, hits + 1);
      }
    }
  }

  /** After the pass no surviving bullet touches a surviving enemy. */
  lemma {:induction false} ResolveSeparates(bs: seq<Bullet>, es: seq<Enemy>, kept: seq<Bullet>, score: int, hits: nat)
    requires forall i :: 0 <= i < |kept| ==> MissesAll(kept[i], es)
    ensures var v := Resolve(bs, es, kept, score, hits);
      forall i :: 0 <= i < |v.bullets| ==> MissesAll(v.bullets[i], v.enemies)
    decreases |bs|
  {
    if |bs| > 0 {
      var st := StrikeAt(bs[0], es);
      if st.Miss? {
        ResolveMiss(bs, es, kept, score, hits);
        StrikeMisses(bs[0], es);
        var more := kept + [bs[0]];
        forall i | 0 <= i < |more| ensures MissesAll(more[i], es) {
          if i < |kept| { assert more[i] == kept[i]; } else { assert more[i] == bs[0]; }
        }
        ResolveSeparates(bs[1..], es, more, score, hits);
      } else {
        ResolveHit(bs, es, kept, score, hits);
        StrikeKeepsMarks(bs[0], es);
        forall i | 0 <= i < |kept| ensures MissesAll(kept[i], st.enemies) {
          MissesFewer(kept[i], st.enemies, es);
        }
        ResolveSeparates(bs[1..], st.enemies, kept, score + st.gained, hits + 1);
      }
    }
  }

  /** Bullets already kept stay kept, at the front. */
  lemma {:induction false} ResolveKeepsKept(bs: seq<Bullet>, es: seq<Enemy>, kept: seq<Bullet>, score: int, hits: nat)
    ensures var v := Resolve(bs, es, kept, score, hits);
      |kept| <= |v.bullets| && v.bullets[..|kept|] == kept
    decreases |bs|
  {
    if |bs| > 0 {
      var st := StrikeAt(bs[0], es);
      var rest := bs[1..];
      if st.Miss? {
        ResolveMiss(bs, es, kept, score, hits);
        var v := Resolve(rest, es, kept + [bs[0]], score, hits);
        assert Resolve(bs, es, kept, score, hits) == v;
        ResolveKeepsKept(rest, es, kept + [bs[0]], score, hits);
        assert v.bullets[..|kept|] == (kept + [bs[0]])[..|kept|];
      } else {
        ResolveHit(bs, es, kept, score, hits);
        ResolveKeepsKept(rest, st.enemies, kept, score + st.gained, hits + 1);
      }
    }
  }

  /** A bullet that touched no enemy at the start of the pass survives it. */
  lemma {:induction false} ResolveSparesMisses(bs: seq<Bullet>, es: seq<Enemy>, kept: seq<Bullet>, score: int, hits: nat)
    ensures var v := Resolve(bs, es, kept, score, hits);
      forall i :: 0 <= i < |bs| && MissesAll(bs[i], es) ==> bs[i] in v.bullets
    decreases |bs|
  {
    if |bs| > 0 {
      var v := Resolve(bs, es, kept, score, hits);
      var rest := bs[1..];
      var st := StrikeAt(bs[0], es);
      StrikeMisses(bs[0], es);
      if st.Miss? {
        ResolveMiss(bs, es, kept, score, hits);
        var more := kept + [bs[0]];
        assert v == Resolve(rest, es, more, score, hits);
        ResolveSparesMisses(rest, es, more, score, hits);
        ResolveKeepsKept(rest, es, more, score, hits);
        assert v.bullets[..|more|] == more && more[|kept|] == bs[0];
        forall i | 0 <= i < |bs| && MissesAll(bs[i], es) ensures bs[i] in v.bullets {
          if i == 0 {
            assert v.bullets[|kept|] == bs[0];
          } else {
            assert bs[i] == rest[i - 1];
          }
        }
      } else {
        ResolveHit(bs, es, kept, score, hits);
        assert v == Resolve(rest, st.enemies, kept, score + st.gained, hits + 1);
        StrikeKeepsMarks(bs[0], es);
        ResolveSparesMisses(rest, st.enemies, kept, score + st.gained, hits + 1);
        forall i | 0 <= i < |bs| && MissesAll(bs[i], es) ensures bs[i] in v.bullets {
          assert bs[i] == rest[i - 1];
          MissesFewer(bs[i], st.enemies, es);
        }
      }
    }
  }

  /** A strike never merges two enemies: distinct identities stay distinct. */
  lemma StrikeKeepsUniqueIds(b: Bullet, es: seq<Enemy>)
    requires StrikeAt(b, es).Hit? && UniqueIds(es)
    ensures UniqueIds(StrikeAt(b, es).enemies)
  {
    var k := StrikeEffect(b, es);
    var left := StrikeAt(b, es).enemies;
    if Damaged(es[k], b.damage).attributes.health > 0 {
      forall i | 0 <= i < |left| ensures left[i].id == es[i].id {
      }
    } else {
      forall i, j | 0 <= i < j < |left| ensures left[i].id != left[j].id {
        var i', j' := if i < k then i else i + 1, if j < k then j else j + 1;
        assert left[i] == es[i'] && left[j] == es[j'];
      }
    }
  }

  /** The pass keeps the enemy identities distinct. */
  lemma {:induction false} ResolveKeepsUniqueIds(bs: seq<Bullet>, es: seq<Enemy>, kept: seq<Bullet>, score: int, hits: nat)
    requires UniqueIds(es)
    ensures UniqueIds(Resolve(bs, es, kept, score, hits).enemies)
    decreases |bs|
  {
    if |bs| > 0 {
      var st := StrikeAt(bs[0], es);
      var rest := bs[1..];
      if st.Miss? {
        ResolveMiss(bs, es, kept, score, hits);
        ResolveKeepsUniqueIds(rest, es, kept + [bs[0]], score, hits);
      } else {
        ResolveHit(bs, es, kept, score, hits);
        StrikeKeepsUniqueIds(bs[0], es);
        ResolveKeepsUniqueIds(rest, st.enemies, kept, score + st.gained, hits + 1);
      }
    }
  }

  /** Every surviving bullet was already kept or is one of the bullets walked over. */
  lemma {:induction false} ResolveBulletsFrom(bs: seq<Bullet>, es: seq<Enemy>, kept: seq<Bullet>, score: int, hits: nat)
    ensures var v := Resolve(bs, es, kept, score, hits);
      forall b :: b in v.bullets ==> b in kept || b in bs
    decreases |bs|
  {
    if |bs| > 0 {
      var st := StrikeAt(bs[0], es);
      var rest := bs[1..];
      assert forall b :: b in rest ==> b in bs;
      if st.Miss? {
        ResolveMiss(bs, es, kept, score, hits);
        ResolveBulletsFrom(rest, es, kept + [bs[0]], score, hits);
      } else {
        ResolveHit(bs, es, kept, score, hits);
        ResolveBulletsFrom(rest, st.enemies, kept, score + st.gained, hits + 1);
      }
    }
  }

  /** The bullets kept during the pass follow the earlier ones, in the order they were walked over. */
  lemma {:induction false} ResolveKeepsOrder(bs: seq<Bullet>, es: seq<Enemy>, kept: seq<Bullet>, score: int, hits: nat)
    returns (idx: seq<nat>)
    ensures var v := Resolve(bs, es, kept, score, hits);
      |kept| <= |v.bullets| && SubsequenceAt(v.bullets[|kept|..], bs, idx)
    decreases |bs|
  {
    var v := Resolve(bs, es, kept, score, hits);
    ResolveKeepsKept(bs, es, kept, score, hits);
    if |bs| == 0 {
      idx := [];
    } else {
      var st := StrikeAt(bs[0], es);
      var rest := bs[1..];
      if st.Miss? {
        var more := kept + [bs[0]];
        ResolveMiss(bs, es, kept, score, hits);
        assert v == Resolve(rest, es, more, score, hits);
        var tail := ResolveKeepsOrder(rest, es, more, score, hits);
        ResolveKeepsKept(rest, es, more, score, hits);
        assert v.bullets[|kept|] == more[|kept|] == bs[0];
        assert v.bullets[|kept|..] == [bs[0]] + v.bullets[|more|..];
        SubsequenceTake(v.bullets[|more|..], bs, tail);
        idx := [0] + Shift(tail, 1);
      } else {
        ResolveHit(bs, es, kept, score, hits);
        assert v == Resolve(rest, st.enemies, kept, score + st.gained, hits + 1);
        var tail := ResolveKeepsOrder(rest, st.enemies, kept, score + st.gained, hits + 1);
        SubsequenceSkip(v.bullets[|kept|..], bs, tail);
        idx := Shift(tail, 1);
      }
    }
  }

  /** A strike removes or damages one enemy in place, so the others keep their order. */
  lemma StrikeKeepsEnemyOrder(b: Bullet, es: seq<Enemy>) returns (idx: seq<nat>)
    requires StrikeAt(b, es).Hit?
    ensures SubsequenceAt(Ids(StrikeAt(b, es).enemies), Ids(es), idx)
  {
    var k := StrikeEffect(b, es);
    var left := StrikeAt(b, es).enemies;
    if Damaged(es[k], b.damage).attributes.health <= 0 {
      assert Ids(left) == Ids(es)[..k] + Ids(es)[k + 1..];
      SubsequenceRemove(Ids(es), k);
      idx := Skipping(|es|, k);
    } else {
      assert Ids(left) == Ids(es);
      SubsequenceRefl(Ids(es));
      idx := Upto(|es|);
    }
  }

  /** The enemies left after the pass keep their relative order. */
  lemma {:induction false} ResolveKeepsEnemyOrder(bs: seq<Bullet>, es: seq<Enemy>, kept: seq<Bullet>, score: int, hits: nat)
    returns (idx: seq<nat>)
    ensures SubsequenceAt(Ids(Resolve(bs, es, kept, score, hits).enemies), Ids(es), idx)
    decreases |bs|
  {
    var v := Resolve(bs, es, kept, score, hits);
    if |bs| == 0 {
      SubsequenceRefl(Ids(es));
      idx := Upto(|es|);
    } else {
      var st := StrikeAt(bs[0], es);
      var rest := bs[1..];
      if st.Miss? {
        ResolveMiss(bs, es, kept, score, hits);
        idx := ResolveKeepsEnemyOrder(rest, es, kept + [bs[0]], score, hits);
      } else {
        ResolveHit(bs, es, kept, score, hits);
        assert v == Resolve(rest, st.enemies, kept, score + st.gained, hits + 1);
        var first := StrikeKeepsEnemyOrder(bs[0], es);
        var after := ResolveKeepsEnemyOrder(rest, st.enemies, kept, score + st.gained, hits + 1);
        SubsequenceTrans(Ids(v.enemies), Ids(st.enemies), Ids(es), after, first);
        idx := Compose(first, after);
      }
    }
  }

  /** The bullet/enemy pass on a whole world: only the score of the player changes. */
  function BulletEnemyPass(w: World): World {
    if !w.slot.hasPlayer then w
    else
      var p := w.slot.player;
      var v := Resolve(w.bullets, w.store.enemies, [], p.attributes.score, 0);
      w.(slot := w.slot.(player := p.(attributes := p.attributes.(score := v.score))),
         store := w.store.(enemies := v.enemies),
         bullets := v.bullets)
  }

  /**
   What the bullet/enemy pass promises: every bullet either survives or is
   spent on one hit; the survivors keep their relative order, and so do the
   remaining enemies; the score the player gains is exactly the score of the
   enemies destroyed; no surviving bullet touches a surviving enemy; a bullet
   that touched no enemy survives; no enemy appears or moves, and the player
   changes in its score alone.
   */
  lemma BulletEnemyPassProperties(w: World)
    requires w.slot.hasPlayer
    ensures var r := BulletEnemyPass(w);
      && |r.bullets| <= |w.bullets|
      && r.slot.player.attributes.score + TotalScore(r.store.enemies)
         == w.slot.player.attributes.score + TotalScore(w.store.enemies)
      && (forall i :: 0 <= i < |r.bullets| ==> MissesAll(r.bullets[i], r.store.enemies))
      && (forall i :: 0 <= i < |w.bullets| && MissesAll(w.bullets[i], w.store.enemies) ==> w.bullets[i] in r.bullets)
      && (forall b :: b in r.bullets ==> b in w.bullets)
      && Marks(r.store.enemies) <= Marks(w.store.enemies)
      && r.slot.player == w.slot.player.(attributes := w.slot.player.attributes.(score := r.slot.player.attributes.score))
    ensures var r := BulletEnemyPass(w);
      |r.bullets| + Resolve(w.bullets, w.store.enemies, [], w.slot.player.attributes.score, 0).hits == |w.bullets|
    ensures exists idx :: SubsequenceAt(BulletEnemyPass(w).bullets, w.bullets, idx)
    ensures exists idx :: SubsequenceAt(Ids(BulletEnemyPass(w).store.enemies), Ids(w.store.enemies), idx)
  {
    var bs, es, score := w.bullets, w.store.enemies, w.slot.player.attributes.score;
    var v := Resolve(bs, es, [], score, 0);
    var kept := ResolveKeepsOrder(bs, es, [], score, 0);
    assert v.bullets[0..] == v.bullets;
    var left := ResolveKeepsEnemyOrder(bs, es, [], score, 0);
    ResolveCounts(bs, es, [], score, 0);
    ResolveKeepsScore(bs, es, [], score, 0);
    ResolveSeparates(bs, es, [], score, 0);
    ResolveSparesMisses(bs, es, [], score, 0);
    ResolveBulletsFrom(bs, es, [], score, 0);
    ResolveKeepsMarks(bs, es, [], score, 0);
  }

  /** The inner search of the bullet pass: the lowest index of an enemy the bullet touches. */
  method FindTarget(b: Bullet, es: seq<Enemy>) returns (k: Option<nat>)
    ensures k == FirstIndex(es, HitBy(b))
    ensures k == Target(b, es)
  {
    TargetIsFirst(b, es);
    var ei := 0;
    while ei < |es|
      invariant 0 <= ei <= |es|
      invariant forall j :: 0 <= j < ei ==> !HitBy(b)(es[j])
    {
      if IsRectCircleCollision(EnemyRect(es[ei]), BulletCircle(b)) {
        return Some(ei);
      }
      ei := ei + 1;
    }
    return None;
  }

  /** In the index loop, passing over a bullet that missed keeps the rest of the pass unchanged. */
  lemma PassOverMiss(bs: seq<Bullet>, bi: nat, es: seq<Enemy>, score: int, hits: nat, st: Strike)
    requires bi < |bs| && st == StrikeAt(bs[bi], es) && st.Miss?
    ensures Resolve(bs[bi + 1..], es, bs[..bi + 1], score, hits) == Resolve(bs[bi..], es, bs[..bi], score, hits)
  {
    var todo := bs[bi..];
    assert todo[0] == bs[bi] && todo[1..] == bs[bi + 1..];
    assert bs[..bi + 1] == bs[..bi] + [bs[bi]];
    ResolveMiss(todo, es, bs[..bi], score, hits);
  }

  /** In the index loop, erasing a bullet that struck leaves the next bullet at the same index. */
  lemma EraseSpent(bs: seq<Bullet>, bi: nat, es: seq<Enemy>, score: int, hits: nat, st: Strike)
    requires bi < |bs| && st == StrikeAt(bs[bi], es) && st.Hit?
    ensures var erased := bs[..bi] + bs[bi + 1..];
      Resolve(erased[bi..], st.enemies, erased[..bi], score + st.gained, hits + 1)
        == Resolve(bs[bi..], es, bs[..bi], score, hits)
  {
    var todo, erased := bs[bi..], bs[..bi] + bs[bi + 1..];
    assert todo[0] == bs[bi] && todo[1..] == bs[bi + 1..];
    assert erased[..bi] == bs[..bi] && erased[bi..] == bs[bi + 1..];
    ResolveHit(todo, es, bs[..bi], score, hits);
  }

  /**
   One bullet of the pass as the game runs it: search for the first enemy
   it touches, take the bullet's damage off that enemy's health, and erase
   the enemy, awarding its score, once its health is used up.
   */
  method StrikeOne(b: Bullet, es: seq<Enemy>) returns (st: Strike)
    ensures st == StrikeAt(b, es)
  {
    var target := FindTarget(b, es);
    if target.None? {
      return Miss;
    }
    var ei := target.value;
    var d := Damaged(es[ei], b.damage);
    if d.attributes.health <= 0 {
      st := Hit(es[..ei] + es[ei + 1..], d.attributes.score);
    } else {
      st := Hit(es[ei := d], 0);
    }
  }

  /**
   The bullet/enemy pass as the game runs it: a bullet that struck an enemy
   is erased and the bullet index is not advanced; a bullet that touched
   nothing is passed over.
   */
  method CheckCollisionBulletsEnemies(w: World) returns (r: World)
    ensures r == BulletEnemyPass(w)
    ensures !w.slot.hasPlayer ==> r == w
  {
    if !w.slot.hasPlayer {
      return w;
    }
    var bs, es := w.bullets, w.store.enemies;
    var score := w.slot.player.attributes.score;
    ghost var hits: nat := 0;
    ghost var goal := Resolve(bs, es, [], score, 0);
    var bi := 0;
    while bi < |bs|
      invariant 0 <= bi <= |bs|
      invariant Resolve(bs[bi..], es, bs[..bi], score, hits) == goal
      decreases |bs| - bi
    {
      var st := StrikeOne(bs[bi], es);
      if st.Miss? {
        PassOverMiss(bs, bi, es, score, hits, st);
        bi := bi + 1;
      } else {
        EraseSpent(bs, bi, es, score, hits, st);
        es, score, hits := st.enemies, score + st.gained, hits + 1;
        bs := bs[..bi] + bs[bi + 1..];
      }
    }
    assert bs[..bi] == bs;
    var p := w.slot.player;
    r := w.(slot := w.slot.(player := p.(attributes := p.attributes.(score := score))),
            store := w.store.(enemies := es),
            bullets := bs);
  }

  // ---------------------------------------------------------------------------
  // The frame
  // ---------------------------------------------------------------------------

  /**
   The enemies left by a pass that creates no enemy and moves none are in the
   field and carry ids the store handed out, if the enemies before it did.
   */
  lemma MarksKeepField(later: seq<Enemy>, earlier: seq<Enemy>, nextId: nat)
    requires Marks(later) <= Marks(earlier)
    requires forall e :: e in earlier ==> InField(e) && e.id < nextId
    ensures forall e :: e in later ==> InField(e) && e.id < nextId
  {
    forall e | e in later ensures InField(e) && e.id < nextId {
      var i :| 0 <= i < |later| && later[i] == e;
      assert (e.id, EnemyRect(e)) in Marks(earlier);
      var j :| 0 <= j < |earlier| && (earlier[j].id, EnemyRect(earlier[j])) == (e.id, EnemyRect(e));
      assert earlier[j] in earlier;
    }
  }

  /** The player/enemy pass keeps the world consistent and never removes the player. */
  lemma PlayerEnemyPassConsistent(w: World)
    requires Consistent(w)
    ensures Consistent(PlayerEnemyPass(w))
    ensures PlayerEnemyPass(w).slot.hasPlayer == w.slot.hasPlayer
  {
    if w.slot.hasPlayer {
      var p := w.slot.player;
      var rect := PlayerRect(p);
      RamPassClosedForm(p, rect, w.store.enemies, []);
      FilterKeepsUniqueIds(w.store.enemies, Clear(rect));
      assert [] + Filter(w.store.enemies, Clear(rect)) == Filter(w.store.enemies, Clear(rect));
    }
  }

  /** The bullet/enemy pass keeps the world consistent and never removes the player. */
  lemma BulletEnemyPassConsistent(w: World)
    requires Consistent(w)
    ensures Consistent(BulletEnemyPass(w))
    ensures BulletEnemyPass(w).slot.hasPlayer == w.slot.hasPlayer
  {
    if w.slot.hasPlayer {
      var r := BulletEnemyPass(w);
      BulletEnemyPassProperties(w);
      ResolveKeepsUniqueIds(w.bullets, w.store.enemies, [], w.slot.player.attributes.score, 0);
      MarksKeepField(r.store.enemies, w.store.enemies, w.store.nextId);
    }
  }

  /**
   One frame as the game runs it: move the player, update the enemies and
   the bullets, then the player/enemy pass, then the bullet/enemy pass.
   `unit` stands for the normalised movement direction, `now` for the game
   clock and `roll` for the random draw that places a new enemy.
   */
  function Frame(w: World, input: Input.InputState, unit: Vector2, now: real, roll: real, deltaTime: real): World
    requires Input.Valid(input)
    requires Direction(input) == Origin ==> unit == Origin
    requires 0.0 <= roll <= 1.0
  {
    var slot := UpdatePlayer(w.slot, input, unit, deltaTime);
    var store := NextStore(w.store, now, roll, deltaTime);
    var fired := NextBullets(slot, w.bullets, input, deltaTime);
    BulletEnemyPass(PlayerEnemyPass(World(fired.0, store, fired.1)))
  }

  /**
   Every frame keeps the world consistent, and the player exists after the
   frame exactly when it existed before it: a death resets the game with a
   fresh player.
   */
  lemma FrameKeepsConsistent(w: World, input: Input.InputState, unit: Vector2, now: real, roll: real, deltaTime: real)
    requires Input.Valid(input)
    requires Direction(input) == Origin ==> unit == Origin
    requires 0.0 <= roll <= 1.0
    requires Consistent(w)
    ensures Consistent(Frame(w, input, unit, now, roll, deltaTime))
    ensures Frame(w, input, unit, now, roll, deltaTime).slot.hasPlayer == w.slot.hasPlayer
  {
    var slot := UpdatePlayer(w.slot, input, unit, deltaTime);
    var store := NextStore(w.store, now, roll, deltaTime);
    var fired := NextBullets(slot, w.bullets, input, deltaTime);
    var moved := World(fired.0, store, fired.1);
    assert Consistent(moved);
    PlayerEnemyPassConsistent(moved);
    BulletEnemyPassConsistent(PlayerEnemyPass(moved));
  }

  /** The frame as the game runs it, one update call after another. */
  method GameUpdate(w: World, input: Input.InputState, unit: Vector2, now: real, roll: real, deltaTime: real)
    returns (r: World)
    requires Input.Valid(input)
    requires Direction(input) == Origin ==> unit == Origin
    requires 0.0 <= roll <= 1.0
    ensures r == Frame(w, input, unit, now, roll, deltaTime)
  {
    var slot := UpdatePlayer(w.slot, input, unit, deltaTime);
    var store := UpdateEnemies(w.store, now, roll, deltaTime);
    var slot', bullets := UpdateBullets(slot, w.bullets, input, deltaTime);
    r := CheckCollisionPlayerEnemies(World(slot', store, bullets));
    r := CheckCollisionBulletsEnemies(r);
  }

  /** Tearing the game down: the player is gone and no enemy or bullet is left. */
  function GameShutdown(w: World): (r: World)
    ensures GetPlayer(r.slot).None? && |r.store.enemies| == 0 && |r.bullets| == 0
    ensures Consistent(r)
  {
    World(DestroyPlayer(w.slot), DestroyEnemies(w.store), ClearBullets(w.bullets))
  }

  /** A game shut down and started again is a fresh game, whatever state it was in. */
  lemma ShutdownThenInit(w: World)
    ensures GetPlayer(ResetGame(GameShutdown(w)).slot) == Some(NewPlayer())
    ensures |ResetGame(GameShutdown(w)).store.enemies| == 0 && |ResetGame(GameShutdown(w)).bullets| == 0
    ensures ResetGame(GameShutdown(w)).store.nextId == w.store.nextId
  {
  }
}
