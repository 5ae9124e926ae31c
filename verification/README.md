# Air Combat — a Dafny model of the per-frame game simulation

Air Combat is a small top-down shooter. The player's plane moves inside an
800×800 play area and fires bullets upwards. Enemies spawn above the screen
on a timer and drift downwards. Each frame runs the same fixed steps:

- the player, enemy and bullet stores are updated;
- the player's box is checked against every enemy (ramming costs health);
- every bullet is checked against the enemies (a hit damages one enemy).

A scene manager switches between a start menu and the game. A button
registry and key/mouse state tables feed input to the game.

This project models that simulation without its SDL and Win32 shells:

- **`Types`, `Geometry`** (geometry.dfy): vectors, rects, circles, `Clamp`,
  `Lerp`, `Dot`, and the rect/rect, rect/circle, circle/circle and point
  overlap tests. Coordinates are `real`.
- **`Config`** (config.dfy): the build-time constants.
- **`Input`, `Mouse`** (input.dfy): the SDL key and button tables, and the
  Win32 mouse state decoded from `lParam`.
- **`Players`, `Bullets`, `Enemies`** (player.dfy, bullet.dfy, enemy.dfy):
  - the player singleton, with its "exists" flag;
  - the bullet store, with fire-on-cooldown, move and cull;
  - the enemy store, with spawn-on-timer, move, cull and removal by identity.
  Each enemy carries an `id` that stands for its pointer identity.
- **`Seqs`** (seqs.dfy): `Filter` and `FirstIndex`. Every erase-while-iterating
  loop is specified with these. `StepAndCull` is the shared
  move-and-erase-without-advancing loop, proved equal to its filter.
- **`Core`** (core.dfy): the game of core.cpp.
  - `ResetGame`.
  - The player/enemy pass, which resets the game on death.
  - The bullet/enemy pass. Each bullet strikes the lowest-index enemy it
    touches, then is spent.
  - The frame order of `GameUpdate`.
  Each index loop is a method proved equal to a functional specification.
- **`Scenes`** (scene.dfy): the pending-scene-change state machine and the
  order in which a frame dispatches the scene handlers.
- **`GameScene`** (game_scene.dfy): the game scene of the scene-manager
  build. It has load, unload and ESC handling, plus its own snapshot-based
  collision passes:
  - the player/enemy pass takes at most one hit per frame, and a death only
    requests the start scene;
  - the bullet/enemy pass works on a local enemy list that shares its enemy
    objects with the store.
  The snapshot bullet pass is proved to compute exactly the core's bullet pass.
- **`Buttons`** (button.dfy): the button registry, with 1-based ids, the
  first-hit click rule and the render pass.

Every erase-while-iterating loop of the program appears twice: once as a
method that follows the index arithmetic of the source, and once as a
filter- or fold-based function. The two are proved equal, so no element is
skipped or visited twice. The world invariant `Core.Consistent` says:

- enemy ids are distinct;
- every enemy is still in the field;
- every bullet is on screen;
- the player is inside the play area.

Both the core's frame and the game scene's frame are proved to preserve it.

## Model

| member | source | states |
|---|---|---|
| Geometry.DotProperties | src/util/util.cpp:43-46 | The dot product is symmetric, and a vector's dot product with itself is never negative. |
| Geometry.Clamp | src/util/util.cpp:57-65 | The result lies in [lo, hi] when lo ≤ hi. A value already in range is returned unchanged. A value below lo gives lo, and one above hi (and not below lo) gives hi: the lower bound is checked first. |
| Geometry.LerpEndpoints | src/util/util.cpp:68-71 | Interpolation gives a at t = 0 and b at t = 1, and stays between a and b for t in [0, 1]. |
| Geometry.RandomDouble | src/util/util.cpp:83-88 | For a draw in [0, 1] the value lies in [lo, hi]; draw 0 gives lo and draw 1 gives hi. |
| Geometry.CreateRect | src/util/util.cpp:155-159 | The position is the top-left corner, the horizontal extent is the width and the vertical extent is the height. A rect built from a non-negative size has its edges in order. |
| Geometry.RectRectSymmetric | src/util/util.cpp:100-109 | Rect overlap does not depend on argument order. |
| Geometry.RectRectIffCommonPoint | src/util/util.cpp:100-109 | For well-formed rects, the separating-axis test holds exactly when the two boxes share a point. |
| Geometry.RectRectEdges | src/util/util.cpp:100-109 | The intervals are closed: rects whose extents overlap on one axis and only touch on the other (a shared vertical or horizontal edge) collide. Any positive gap on either axis, horizontal or vertical, means no collision. |
| Geometry.PointInRectIsDegenerateRect | src/util/util.cpp:139-142 | A point is in a rect exactly when the zero-size rect at that point overlaps it. |
| Geometry.CornersInRect | src/util/util.cpp:139-142 | The point test is closed on all four edges: every corner of a well-formed rect is inside it. |
| Geometry.CenterInRectCollides | src/util/util.cpp:113-126 | A circle whose centre lies in the rect collides with it, whatever its radius. |
| Geometry.RectCircleIffNearPoint | src/util/util.cpp:113-126 | The closest-point test holds exactly when some point of the rect lies within the radius of the centre. |
| Geometry.CircleCircleSymmetric | src/util/util.cpp:130-136 | Circle overlap does not depend on argument order. |
| Geometry.PointInCircleIsZeroRadius | src/util/util.cpp:145-150 | A point is in a circle exactly when a zero-radius circle at that point overlaps it. |
| Input.Initial | src/input/input.cpp:8-16 | Before any event, every key and every mouse button reads as up, and the mouse is at (0, 0). |
| Input.ProcessEvent | src/input/input.cpp:25-57 | Key-down and key-up with an in-range scancode set or clear exactly that key; out-of-range scancodes change nothing. Mouse button indices of 8 or more are ignored. Motion changes only the position. Nothing else changes. |
| Input.PressReleaseRestores | src/input/input.cpp:29-37 | Pressing and releasing a key leaves it up and every other key as it was. |
| Mouse.ExtractMouseX | src/util/mouse.cpp:46-49 | The X coordinate is the low 16 bits, read unsigned, so it lies in [0, 65536). |
| Mouse.ExtractMouseY | src/util/mouse.cpp:56-59 | The Y coordinate is bits 16 to 31, read unsigned, so it lies in [0, 65536). |
| Mouse.DecodePackedPosition | src/util/mouse.cpp:46-59 | Decoding x + 65536·y gives back (x, y) for 16-bit x and y. |
| Mouse.PackDecodedPosition | src/util/mouse.cpp:46-59 | Packing the two decoded words rebuilds every 32-bit lParam: the decoding loses nothing. |
| Mouse.InitialMouse | src/util/mouse.cpp:20-30 | Before any message the getters report (0, 0) and every button up. |
| Mouse.MouseMove | src/util/mouse.cpp:73-82 | Motion stores the decoded position and leaves every button flag alone. |
| Mouse.LButtonDown | src/util/mouse.cpp:91-102 | Sets the left flag and the position; the right and middle flags are untouched. |
| Mouse.LButtonUp | src/util/mouse.cpp:110-121 | Clears the left flag and sets the position; the right and middle flags are untouched. |
| Mouse.RButtonDown | src/util/mouse.cpp:126-134 | Sets the right flag and the position; the left flag is untouched. |
| Mouse.RButtonUp | src/util/mouse.cpp:139-147 | Clears the right flag and sets the position; the left flag is untouched. |
| Mouse.ClearMouseStates | src/util/mouse.cpp:210-219 | Every button flag is cleared and the last position is kept. |
| Mouse.ClickAtPosition | src/util/mouse.cpp:91-121 | A full left click at a packed position leaves the left button up, keeps the right flag, and the getters report that position. |
| Players.NewPlayer | src/game_object/player.cpp:18-32 | A fresh player has full health, no score, no cooldown and the configured speed and size. It is horizontally centred, 20 pixels above the bottom edge, and inside the play area. |
| Players.CreatePlayer | src/game_object/player.cpp:18-32 | The player exists afterwards, with exactly the fresh state, whatever was there before. |
| Players.GetPlayer | src/game_object/player.cpp:35-38 | A player is returned exactly when one exists, and it is the stored one. |
| Players.DestroyPlayer | src/game_object/player.cpp:99-102 | Afterwards no player is returned; only the flag changes. |
| Players.DestroyThenCreate | src/game_object/player.cpp:18-32 | Creating after destroying gives the same fresh player as creating at once. |
| Players.Direction | src/game_object/player.cpp:48-61 | Before normalisation each axis is -1, 0 or 1. It is negative exactly when only the negative key of that axis is held, so opposite keys cancel. |
| Players.UpdatePlayer | src/game_object/player.cpp:41-77 | With no player nothing changes. Otherwise health, score, speed and size are kept, and the player ends inside the play area. Without movement keys a player already in the area stays put. The cooldown drops by deltaTime only while it is positive. |
| Bullets.CreateBullet | src/game_object/bullet.cpp:18-26 | Appends one bullet of the standard radius with the given position, damage and speed; the existing bullets are unchanged. |
| Bullets.ClearBullets | src/game_object/bullet.cpp:35-38 | The collection is empty afterwards. |
| Bullets.Fire | src/game_object/bullet.cpp:44-59 | A shot happens only with a player, space held and the cooldown run out. It appends exactly one bullet, keeping the others. The new bullet is centred on the midpoint of the player box's top edge and has the standard radius, damage and speed. The player's cooldown is set to its full length, and nothing else about the player changes. Without a shot nothing changes. |
| Bullets.ShotBlocksNextShot | src/game_object/bullet.cpp:48-58 | After a shot the cooldown is positive again, so a second firing attempt fires nothing. |
| Bullets.MoveBullet | src/game_object/bullet.cpp:62-66 | A bullet moves straight up by exactly speed·deltaTime, and nothing else about it changes. |
| Bullets.MovedMembership | src/game_object/bullet.cpp:62-66 | The moved list holds exactly the moves of the original bullets. |
| Bullets.NextBullets | src/game_object/bullet.cpp:41-76 | After a bullet update, at most one bullet has been added. A bullet survives exactly when it is the move of a bullet present after firing (one just fired included) and is still on screen. |
| Bullets.UpdateBullets | src/game_object/bullet.cpp:41-76 | The firing step followed by the move-and-erase loop computes exactly the bullet update. |
| Seqs.StepAndCull | src/game_object/bullet.cpp:62-75 | The update-in-place loop, which erases without advancing the index, yields exactly the updated elements that pass the test, in their original order. No element is skipped or visited twice. |
| Enemies.InitialStore | src/game_object/enemy.cpp:11-12 | The store starts empty, with the last spawn at time zero. |
| Enemies.CreateEnemy | src/game_object/enemy.cpp:15-28 | Appends one enemy with the configured size, health, score and speed and zero cooldowns. The others are unchanged, and ids stay distinct. |
| Enemies.CreateRandomEnemy | src/game_object/enemy.cpp:30-35 | The new enemy appears at y = -100, with x in [30, width − 30 − enemy width], so it lies fully within the play area's width. |
| Enemies.DestroyEnemy | src/game_object/enemy.cpp:42-49 | Removes the first entry with the given identity and keeps the rest in order; it is a no-op when that identity is absent. |
| Enemies.DestroyEnemyIsFilter | src/game_object/enemy.cpp:42-49 | With distinct ids, destroying an enemy removes exactly the entries with that identity. |
| Enemies.FindsById | src/game_object/enemy.cpp:42-49 | With distinct ids, the search by identity finds exactly the entry that carries it, and destroying removes that entry alone. |
| Enemies.DestroyEnemies | src/game_object/enemy.cpp:51-56 | The collection is empty afterwards; the spawn timer and id counter are kept. |
| Enemies.MoveEnemy | src/game_object/enemy.cpp:69-70 | An enemy moves straight down by exactly speed·deltaTime, and nothing else about it changes. |
| Enemies.Spawn | src/game_object/enemy.cpp:60-65 | At most one enemy is added per update, and only when strictly more than the spawn interval has passed. The timer then restarts at now; otherwise nothing changes. |
| Enemies.NextStore | src/game_object/enemy.cpp:58-80 | After an update at most one enemy has been added. An enemy survives exactly when it is the move of a (possibly just spawned) enemy and has not passed the cull line. Ids stay distinct. |
| Enemies.UpdateEnemies | src/game_object/enemy.cpp:58-80 | The spawn gate followed by the move-and-erase loop computes exactly the enemy update. |
| Core.ResetGame | src/core/core.cpp:14-19 | After a reset there is a fresh player, with the old score discarded, and no enemies and no bullets. |
| Core.Rammed | src/core/core.cpp:37-44 | Ramming an enemy costs exactly one health and adds that enemy's score; position and size are unchanged. |
| Core.RamPassClosedForm | src/core/core.cpp:33-55 | Let the hits be the enemies whose boxes overlap the player's. The player dies exactly when there is a hit and the hits use up all its health. Otherwise it loses one health per hit and gains their scores, and exactly the non-overlapping enemies remain, in order. |
| Core.CheckCollisionPlayerEnemies | src/core/core.cpp:22-56 | With no player nothing changes. A death resets the game. Otherwise every overlapping enemy is removed at one health each, its score is gained, and the others survive in order. |
| Core.Damaged | src/core/core.cpp:85-85 | A hit enemy loses exactly the bullet's damage; its identity, box and score are unchanged. |
| Core.TargetIsFirst | src/core/core.cpp:76-82 | The enemy scan for a bullet selects the lowest-index enemy the bullet touches. |
| Core.StrikeMisses | src/core/core.cpp:76-82 | A bullet misses exactly when it touches none of the enemies. |
| Core.StrikeEffect | src/core/core.cpp:76-97 | A bullet strikes only the first enemy it touches. That enemy is removed, with its score awarded, exactly when its health drops to 0 or below. Otherwise it stays in place with reduced health and nothing is awarded. |
| Core.ResolveCounts | src/core/core.cpp:69-103 | Surviving bullets plus spent bullets add up to the bullets there were, and enemies are never added. |
| Core.StrikeShrinks | src/core/core.cpp:87-92 | One strike removes at most one enemy. |
| Core.StrikeKeepsScore | src/core/core.cpp:87-91 | What one strike awards is exactly the score that leaves the enemy list. |
| Core.ResolveKeepsScore | src/core/core.cpp:69-103 | Over the whole pass, player score plus the score of the remaining enemies is conserved. |
| Core.StrikeKeepsMarks | src/core/core.cpp:84-92 | A strike never creates or moves an enemy: every remaining enemy appears before, with the same identity and box. |
| Core.ResolveKeepsMarks | src/core/core.cpp:69-103 | Over the whole pass no enemy is created or moved. |
| Core.ResolveSeparates | src/core/core.cpp:69-103 | After the pass no surviving bullet touches a surviving enemy. |
| Core.ResolveKeepsKept | src/core/core.cpp:100-102 | Bullets kept earlier stay at the front of the survivors, in order. |
| Core.ResolveSparesMisses | src/core/core.cpp:76-82 | A bullet that touched no enemy at the start of the pass survives it. |
| Core.ResolveBulletsFrom | src/core/core.cpp:69-103 | Every surviving bullet was one of the bullets there before. |
| Core.ResolveKeepsOrder | src/core/core.cpp:95-102 | The bullets kept during the pass follow those kept before, and form a subsequence of the bullets walked over, in their relative order: a spent bullet is erased in place and a missing one stays where it was. |
| Core.StrikeKeepsEnemyOrder | src/core/core.cpp:84-92 | A strike erases or damages one enemy in place, so the ids of the enemies left are a subsequence of the ids before, in order. |
| Core.ResolveKeepsEnemyOrder | src/core/core.cpp:69-103 | Over the whole pass, the ids of the remaining enemies are a subsequence of the original ids, in order. |
| Core.StrikeKeepsUniqueIds | src/core/core.cpp:87-92 | A strike keeps enemy ids distinct. |
| Core.ResolveKeepsUniqueIds | src/core/core.cpp:69-103 | The whole pass keeps enemy ids distinct. |
| Core.BulletEnemyPassProperties | src/core/core.cpp:59-104 | Every bullet either survives or is spent on exactly one hit: survivors plus hits equal the bullets there were. The surviving bullets are a subsequence of the original list, in their relative order. The ids of the remaining enemies are a subsequence of the original ids, also in order. Score plus remaining enemy score is conserved. No surviving bullet touches a surviving enemy, and every bullet that touched nothing survives. No enemy appears or moves, and the player changes only in score. |
| Core.FindTarget | src/core/core.cpp:76-82 | The inner enemy loop finds the first enemy the bullet touches, or none. |
| Core.StrikeOne | src/core/core.cpp:78-97 | Damaging, and possibly erasing, the first touched enemy in place computes exactly one strike. |
| Core.CheckCollisionBulletsEnemies | src/core/core.cpp:59-104 | The nested index loops compute exactly the bullet/enemy pass; with no player nothing changes. |
| Core.PlayerEnemyPassConsistent | src/core/core.cpp:22-56 | The player/enemy pass keeps the world consistent and never removes the player. |
| Core.BulletEnemyPassConsistent | src/core/core.cpp:59-104 | The bullet/enemy pass keeps the world consistent and never removes the player. |
| Core.FrameKeepsConsistent | src/core/core.cpp:114-124 | A whole frame (three updates, then both passes, in that order) keeps the world consistent and keeps the player. |
| Core.GameUpdate | src/core/core.cpp:114-124 | Running the updates and then the collision passes, in source order, computes exactly the frame. |
| Core.GameShutdown | src/core/core.cpp:143-148 | After shutdown there is no player, no enemy and no bullet. |
| Core.ShutdownThenInit | src/core/core.cpp:108-111 | Initialising after a shutdown gives a fresh player and empty collections. The id counter carries over, so old enemy ids are never handed out again. |
| Scenes.InitialScenes | src/scene/scene.cpp:8-9 | No scene is current and none is requested before the first frame. |
| Scenes.ChangeScene | src/scene/scene.cpp:17-20 | A request only records the pending id; the current scene is unchanged. |
| Scenes.LastRequestWins | src/scene/scene.cpp:17-20 | Of several requests before the next frame, the last one wins, and none changes the current scene. |
| Scenes.Route | src/scene/scene.cpp:22-33 | A routed handler runs nothing for the None scene, and exactly the current scene's own handler otherwise. |
| Scenes.Handlers | src/scene/scene.cpp:72-74 | Every frame dispatches input, collisions and update to the current scene, in that order, and nothing for the None scene. |
| Scenes.SceneLoop | src/scene/scene.cpp:61-75 | The transition step of a frame: afterwards, before any handler runs, nothing is pending. A pending id other than None becomes current. The old scene, if there is one, is unloaded exactly when a change was pending. A load happens exactly when a change was pending. Every other handler goes to the new current scene, and the None scene is never called. A request that a handler makes during the frame stays pending into the next frame (see Scenes.RequestAppliedNextFrame). |
| Scenes.FrameOrder | src/scene/scene.cpp:61-75 | Within a frame the dispatch order is unload, load, input, collisions, update, each at most once. |
| Scenes.FrameEndsWithHandlers | src/scene/scene.cpp:72-74 | A frame that ends with a scene current ends with that scene's input, collision and update handlers. |
| Scenes.NoneNeverTransitions | src/scene/scene.cpp:64-70 | Without a pending request (or with a request for None) the scene stays the same and nothing is loaded or unloaded. |
| Scenes.NoneSceneIsIdle | src/scene/scene.cpp:22-33 | While the None scene is current and nothing is pending, a frame dispatches nothing. |
| Scenes.RequestAppliedNextFrame | src/scene/scene.cpp:61-70 | A request made during a frame is applied, with a load, at the start of the next frame. |
| Buttons.TruncToInt | src/ui/button.cpp:12-13 | The conversion to int truncates toward zero: it lands within one unit of the value, on the side of zero. |
| Buttons.ButtonEdgesClosed | src/ui/button.cpp:10-17 | The hit test is closed on all four edges: the corners of the truncated box are inside and the pixels just beyond each edge are not. |
| Buttons.TruncationWidensBox | src/ui/button.cpp:12-16 | A button at a positive fractional x also answers to the whole pixel just before it. |
| Buttons.CreateButton | src/ui/button.cpp:19-31 | Appends one button, disabled, with the given geometry and callbacks, and returns the new registry size as its id. |
| Buttons.GetButton | src/ui/button.cpp:33-39 | A button is found exactly for ids 1 to size, and it is the one at position id − 1. |
| Buttons.CreateThenGet | src/ui/button.cpp:19-39 | The id a creation returns finds the new, disabled button. |
| Buttons.SetEnabled | src/ui/button.cpp:41-53 | For a valid id only that button's flag changes; an invalid id changes nothing. |
| Buttons.EnableButton | src/ui/button.cpp:41-46 | Enables exactly the button with that id; an invalid id changes nothing. |
| Buttons.DisableButton | src/ui/button.cpp:48-53 | Disables exactly the button with that id; an invalid id changes nothing. |
| Buttons.DestroyButtons | src/ui/button.cpp:55-60 | The registry is empty afterwards. |
| Buttons.DestroyThenCreate | src/ui/button.cpp:55-60 | After the registry is emptied, id 1 finds no button and the next button created gets id 1. |
| Buttons.PressButtons | src/ui/button.cpp:62-75 | A click presses the first button in creation order that is enabled and under the point, or none. Only that button's click callback runs, if it has one. |
| Buttons.PressedIsFirstClickable | src/ui/button.cpp:62-75 | The pressed button is enabled and contains the point, and no earlier button is both. |
| Buttons.DisabledNeverPressed | src/ui/button.cpp:66-67 | A disabled button is never pressed, wherever the click lands. |
| Buttons.EnabledIsPressed | src/ui/button.cpp:62-75 | An enabled button under the point is pressed unless an earlier button takes the click. |
| Buttons.RenderedExactly | src/ui/button.cpp:79-85 | Exactly the enabled buttons with a render callback are drawn, each once and in creation order. |
| Buttons.RenderButtons | src/ui/button.cpp:77-86 | The render pass invokes the render callbacks of exactly the drawn buttons, in order. |
| GameScene.LoadScene | src/scene/scene2.cpp:14-19 | Loading gives a fresh player and no enemies or bullets, the same state as the core's reset. |
| GameScene.UnloadScene | src/scene/scene2.cpp:21-26 | Unloading leaves no player and no enemies or bullets, the same state as the core's shutdown. |
| GameScene.ProcessUiInput | src/scene/scene2.cpp:28-35 | ESC requests the start scene and changes nothing else; without ESC nothing changes. |
| GameScene.RamOnceEffect | src/scene/scene2.cpp:43-62 | At most one hit per frame. With no overlap nothing changes. Otherwise exactly the first overlapping enemy is removed, and the player loses one health and gains its score. The bullets and the player's existence are untouched. A death only requests the start scene. |
| GameScene.RamOnceAgreesWithCore | src/scene/scene2.cpp:37-63 | While the player is hit at most once and survives, this pass and the core's pass give the same world, and no scene change is requested. |
| GameScene.CheckCollisionPlayerEnemies | src/scene/scene2.cpp:37-63 | The loop over the snapshot that breaks at the first hit computes exactly the one-hit pass; with no player nothing changes. |
| GameScene.RetouchAt | src/scene/scene2.cpp:85-90 | With distinct ids, damaging an enemy through a shared pointer changes exactly its own entry in every list. |
| GameScene.SnapshotStrike | src/scene/scene2.cpp:83-99 | One bullet against the local list keeps the local list and the store equal, and has exactly the effect of the core's strike. |
| GameScene.SnapshotStep | src/scene/scene2.cpp:79-101 | One step of the snapshot loop follows the core's resolution of the same bullet and keeps ids distinct. |
| GameScene.CheckCollisionBulletsEnemies | src/scene/scene2.cpp:65-102 | With distinct enemy ids, the snapshot bullet pass computes exactly the core's bullet/enemy pass. With no player nothing changes. |
| GameScene.RamOnceConsistent | src/scene/scene2.cpp:37-63 | The one-hit pass keeps the world consistent and keeps the player. |
| GameScene.GameSceneKeepsConsistent | src/scene/scene2.cpp:104-115 | A game-scene frame (ESC, both collision passes, then the updates) keeps the world consistent, keeps the player and keeps the current scene. |
| GameScene.GameSceneTick | src/scene/scene2.cpp:104-115 | Running the handlers one after another computes exactly the game scene's frame. |

## Left out

- Rendering is not modelled: `RenderPlayer`, `RenderEnemies`, `RenderBullets`, `DrawFilledCircle`, `GameRender`, the `RenderScene_*` handlers and the HUD only draw.
- src/main.cpp, src/core/main.cpp and the window procedure are not part of this model: they are window, event-pump and timer glue.
- src/resource/resource.cpp and src/core/info.cpp are not part of this model: they hold bitmap handles and debug logging.
- The start scene (src/scene/scene1.cpp) is not part of this model. The scene manager records which of its handlers would be called, not what they do.
- `Length`, `Normalize` and `Distance` need a square root, so they are not modelled. The player update takes the normalised direction as a parameter `unit`, which must be the zero vector whenever the raw direction is zero: when no movement key is held, and also when only opposite keys are held, since they cancel.
- Random numbers are left out. The draw `rand() / RAND_MAX` of `GetRandomDouble` is a parameter `roll` in [0, 1]. `GetRandomInt`, `GetRandomBool` and the seeding in `InitRandom` are not used by the simulation and are not modelled.
- The game clock `GetGameTime` is only declared (src/core/core.h:11), with no definition among the core files; the current time is a parameter `now`.
- Floating-point behaviour is not modelled: coordinates, speeds and cooldowns are exact reals, not IEEE doubles.
- Health, score and damage are unbounded integers, so 32-bit overflow of `int` is not modelled.
- Buttons.TruncToInt: a `double` outside the range of `int`, undefined behaviour in the program, is not modelled.
- `InputBeginFrame` has an empty body and is not modelled.
- `GetMousePos` returns a pair instead of writing through references.
- The collision pass of core.cpp calls `ClearEnemies` and a reference-returning `GetEnemies`, declared in src/game_object/enemy.h:33-36 for a value-based store. enemy.cpp implements a pointer-based store with no `ClearEnemies` and no reference-returning `GetEnemies`. `ClearEnemies` is modelled as `DestroyEnemies`, and enemies are values with an `id` for their pointer identity. Freeing enemy memory is not modelled.
- The snapshot pass of scene2.cpp uses `DestroyBullet`, `DestroyBullets` and a pointer-returning `GetBullets`. bullet.cpp defines no `DestroyBullet` or `DestroyBullets`, and its `GetBullets` returns a reference to a value vector. A destroyed bullet is modelled as a bullet that does not survive the pass, and `DestroyBullets` as `ClearBullets`.
- The ESC test `GetKeyDown(VK_ESCAPE)`: src/util/keyboard.h:141 only declares `GetKeyDown`, and no core file defines it; whether ESC is down is a boolean parameter.
- GameScene.CheckCollisionBulletsEnemies: requires distinct enemy ids. In the program, pointer identity guarantees this, and `Core.Consistent` carries it as an invariant.
- GameScene.GameSceneTick: requires a consistent world, the invariant every frame keeps, because the snapshot bullet pass relies on distinct ids.
- GameScene.SnapshotStrike: requires distinct ids, and the local list equal to the store at the start of the step, which is what the snapshot gives.
- Button callbacks are opaque handles, so the model records which callback a click or the render pass invokes, not what it does. The click loop stops right after the call, so a callback that changes the registry cannot affect the same pass.
- The `!b` null test of the button loops is not modelled: the registry never holds a null button.
- The commented-out "advanced usage" blocks of src/util/mouse.cpp (dragging, the wheel, double clicks) are not code and are not modelled.
- Enemy spawning follows the code: a single `if` with a timestamp per update, not a loop that catches up on missed intervals.
