/**
 The scene manager: the id of the current scene and the id of a requested
 change, which is applied only at the start of the next frame. The scene
 handlers themselves are not run here: a frame is described by the calls it
 dispatches, in order; the game scene's handlers are modelled separately.
 */
module Scenes {

  datatype SceneId = None | StartScene | GameScene

  /** The two globals of the scene manager: the current scene and the pending request (`None` when there is none). */
  datatype SceneState = SceneState(current: SceneId, pending: SceneId)

  /** Before the first frame no scene is current and none is requested. */
  function InitialScenes(): (s: SceneState)
    ensures s.current == None && s.pending == None
  {
    SceneState(None, None)
  }

  /** Records a request; the current scene is left alone until the next frame starts. */
  function ChangeScene(s: SceneState, id: SceneId): (r: SceneState)
    ensures r.current == s.current && r.pending == id
  {
    s.(pending := id)
  }

  /** Several requests made one after another within a frame. */
  function Requests(s: SceneState, ids: seq<SceneId>): SceneState
    decreases |ids|
  {
    if |ids| == 0 then s else Requests(ChangeScene(s, ids[0]), ids[1..])
  }

  /** Of several requests made before the next frame, the last one wins, and none of them changes the current scene. */
  lemma {:induction false} LastRequestWins(s: SceneState, ids: seq<SceneId>)
    requires |ids| > 0
    ensures Requests(s, ids).pending == ids[|ids| - 1]
    ensures Requests(s, ids).current == s.current
    decreases |ids|
  {
    if |ids| > 1 {
      LastRequestWins(ChangeScene(s, ids[0]), ids[1..]);
    }
  }

  /** The per-scene handlers a frame can dispatch to. */
  datatype Handler = UnloadScene | LoadScene | ProcessUiInput | CheckCollision | UpdateScene

  /** One dispatched call: which scene's handler ran. */
  datatype Call = Call(scene: SceneId, handler: Handler)

  /** The position of each handler within a frame. */
  function Rank(h: Handler): nat {
    match h
    case UnloadScene => 0
    case LoadScene => 1
    case ProcessUiInput => 2
    case CheckCollision => 3
    case UpdateScene => 4
  }

  /** Routing a handler: the `None` scene has no handlers, so nothing runs; any other scene runs its own. */
  function Route(id: SceneId, h: Handler): (r: seq<Call>)
    ensures id == None <==> r == []
    ensures forall c :: c in r ==> c == Call(id, h)
  {
    if id == None then [] else [Call(id, h)]
  }

  /** The three handlers every frame routes to the current scene, in order. */
  function Handlers(id: SceneId): (r: seq<Call>)
    ensures id == None ==> r == []
    ensures id != None ==> r == [Call(id, ProcessUiInput), Call(id, CheckCollision), Call(id, UpdateScene)]
  {
    Route(id, ProcessUiInput) + Route(id, CheckCollision) + Route(id, UpdateScene)
  }

  /**
   One frame of the scene manager. A pending request other than `None` is
   applied first: the old scene is unloaded, the requested one becomes
   current, the request is cleared and the new scene is loaded. Then the
   current scene processes its input, checks collisions and updates, in
   that order.

   `r.0` is the manager's state after the transition step, before the
   dispatched handlers run; `r.1` lists the handlers dispatched. A handler
   that calls `ChangeScene` (the game scene's ESC test, its death check)
   leaves a new request pending when the frame ends; `ChangeScene` applied
   to `r.0` gives that state, and `RequestAppliedNextFrame` follows it into
   the next frame.
   */
  function SceneLoop(s: SceneState): (r: (SceneState, seq<Call>))
    ensures r.0.pending == None
    ensures s.pending != None ==> r.0.current == s.pending
    ensures s.pending == None ==> r.0.current == s.current
    ensures forall c :: c in r.1 ==> c.scene != None
    ensures s.pending != None && s.current != None ==> Call(s.current, UnloadScene) in r.1
    ensures forall c :: c in r.1 ==> (c.handler == UnloadScene ==> s.pending != None && c.scene == s.current)
    ensures forall c :: c in r.1 ==> (c.handler != UnloadScene ==> c.scene == r.0.current)
    ensures (exists c :: c in r.1 && c.handler == LoadScene) <==> s.pending != None
  {
    if s.pending == None then (s, Handlers(s.current))
    else
      var switching := Route(s.current, UnloadScene) + [Call(s.pending, LoadScene)];
      var trace := switching + Handlers(s.pending);
      assert trace[|switching| - 1] == Call(s.pending, LoadScene);
      (SceneState(s.pending, None), trace)
  }

  /** The order within a frame: unload before load before input before collisions before update, each at most once. */
  lemma FrameOrder(s: SceneState)
    ensures var r := SceneLoop(s);
      forall i, j :: 0 <= i < j < |r.1| ==> Rank(r.1[i].handler) < Rank(r.1[j].handler)
  {
    var r := SceneLoop(s);
    var n, c := s.pending, s.current;
    if n == None {
      assert c != None ==> r.1 == [Call(c, ProcessUiInput), Call(c, CheckCollision), Call(c, UpdateScene)];
    } else if c == None {
      assert r.1 == [Call(n, LoadScene), Call(n, ProcessUiInput), Call(n, CheckCollision), Call(n, UpdateScene)];
    } else {
      assert r.1 == [Call(c, UnloadScene), Call(n, LoadScene), Call(n, ProcessUiInput), Call(n, CheckCollision), Call(n, UpdateScene)];
    }
  }

  /** A frame that ends with a scene current ends with that scene's three per-frame handlers. */
  lemma FrameEndsWithHandlers(s: SceneState)
    ensures var r := SceneLoop(s);
      r.0.current != None ==>
        |r.1| >= 3 && r.1[|r.1| - 3..] == [Call(r.0.current, ProcessUiInput), Call(r.0.current, CheckCollision), Call(r.0.current, UpdateScene)]
  {
    var r := SceneLoop(s);
    if s.pending != None {
      var switching := Route(s.current, UnloadScene) + [Call(s.pending, LoadScene)];
      assert r.1 == switching + Handlers(s.pending);
      assert r.1[|r.1| - 3..] == Handlers(s.pending);
    }
  }

  /** A request for `None` never causes a transition: the current scene stays and no load or unload runs. */
  lemma NoneNeverTransitions(s: SceneState)
    requires s.pending == None
    ensures SceneLoop(s).0 == s
    ensures forall c :: c in SceneLoop(s).1 ==> c.handler != UnloadScene && c.handler != LoadScene
  {
  }

  /** While the `None` scene is current and nothing is requested, a frame dispatches nothing at all. */
  lemma NoneSceneIsIdle(s: SceneState)
    requires s.current == None && s.pending == None
    ensures SceneLoop(s) == (s, [])
  {
  }

  /** A request made during a frame is applied, exactly once, at the start of the next one. */
  lemma RequestAppliedNextFrame(s: SceneState, id: SceneId)
    requires id != None
    ensures var r := SceneLoop(ChangeScene(SceneLoop(s).0, id));
      r.0 == SceneState(id, None) && Call(id, LoadScene) in r.1
    ensures SceneLoop(SceneLoop(ChangeScene(s, id)).0).0.current == id
  {
    var t := ChangeScene(SceneLoop(s).0, id);
    assert SceneLoop(t).1[|Route(t.current, UnloadScene)|] == Call(id, LoadScene);
  }
}
