/** The application's scene state machine (LucreApp::GameState): three
    scenes, SPLASH, MAIN and SETTINGS, switched when the current scene
    reports that it is finished. The scenes themselves are outside the
    model: what GameState asks of them is recorded as a trace of calls,
    and the current scene's IsFinished (that is, `!m_IsRunning`) is an
    input of each update. */
module GameStates {

  datatype State = Splash | Main | Settings

  /** A call GameState makes on a scene or on the engine. */
  datatype Call = StartScene(scene: State) | StopScene(scene: State) | Shutdown

  datatype GameState = GameState(state: State, inputIdle: bool, userInputEnabled: bool)

  /** The GameState constructor: the splash scene, input disabled. */
  function Init(): (g: GameState)
    ensures g.state == Splash && !g.userInputEnabled && !g.inputIdle
  {
    GameState(Splash, false, false)
  }

  datatype Switched = Switched(game: GameState, calls: seq<Call>)

  /** GameState::SetState: stop the current scene, change state, start
      the new scene, in that order, even when the state does not change. */
  function SetState(g: GameState, s: State): (r: Switched)
    ensures r.game.state == s
    ensures r.game.userInputEnabled == g.userInputEnabled && r.game.inputIdle == g.inputIdle
    ensures |r.calls| == 2 && r.calls[0] == StopScene(g.state) && r.calls[1] == StartScene(s)
  {
    Switched(g.(state := s), [StopScene(g.state), StartScene(s)])
  }

  /** GameState::Start after the scenes are created: SetState(SPLASH). */
  function Start(g: GameState): (r: Switched)
    ensures r.game.state == Splash
    ensures r.calls == [StopScene(g.state), StartScene(Splash)]
  {
    SetState(g, Splash)
  }

  /** GameState::Stop: stop the current scene. */
  function Stop(g: GameState): (calls: seq<Call>)
    ensures calls == [StopScene(GetScene(g))]
  {
    [StopScene(g.state)]
  }

  /** GameState::GetScene: the scene of the current state. */
  function GetScene(g: GameState): (s: State)
    ensures s == g.state
  {
    g.state
  }

  /** GameState::EnableUserInput: only the input flag changes. */
  function EnableUserInput(g: GameState, enable: bool): (r: GameState)
    ensures r.userInputEnabled == enable
    ensures r.state == g.state && r.inputIdle == g.inputIdle
  {
    g.(userInputEnabled := enable)
  }

  datatype Updated = Updated(game: GameState, calls: seq<Call>, scene: State)

  /** GameState::OnUpdate given whether the current scene is finished.
      A finished splash or settings scene hands over to MAIN; a finished
      MAIN scene asks the engine to shut down and stays current; an
      unfinished scene changes nothing. The scene returned is the one
      current after the update. */
  function OnUpdate(g: GameState, finished: bool): (r: Updated)
    ensures !finished ==> r.game == g && r.calls == []
    ensures finished && g.state != Main ==>
              r.game == g.(state := Main) && r.calls == [StopScene(g.state), StartScene(Main)]
    ensures finished && g.state == Main ==> r.game == g && r.calls == [Shutdown]
    ensures r.scene == GetScene(r.game)
    ensures r.game.userInputEnabled == g.userInputEnabled && r.game.inputIdle == g.inputIdle
  {
    match g.state
    case Splash =>
      if finished then var s := SetState(g, Main); Updated(s.game, s.calls, GetScene(s.game))
      else Updated(g, [], GetScene(g))
    case Main =>
      Updated(g, if finished then [Shutdown] else [], GetScene(g))
    case Settings =>
      if finished then var s := SetState(g, Main); Updated(s.game, s.calls, GetScene(s.game))
      else Updated(g, [], GetScene(g))
  }

  /** No update ever enters SPLASH or SETTINGS: the state after an update
      is the state before it or MAIN. */
  lemma OnUpdateTargetsOnlyMain(g: GameState, finished: bool)
    ensures var s := OnUpdate(g, finished).game.state;
            s == g.state || s == Main
    ensures OnUpdate(g, finished).game.state != g.state <==> finished && g.state != Main
  {
  }

  /** A run of updates, one IsFinished answer per frame. Until some
      frame reports the current scene finished nothing happens; from the
      first such frame on the game is in MAIN, and the input flags never
      change. */
  function Run(g: GameState, frames: seq<bool>): (r: Switched)
    ensures (forall k :: 0 <= k < |frames| ==> !frames[k]) ==> r == Switched(g, [])
    ensures (exists k :: 0 <= k < |frames| && frames[k]) ==> r.game == g.(state := Main)
  {
    if |frames| == 0 then Switched(g, [])
    else
      var front := frames[..|frames| - 1];
      assert forall k :: 0 <= k < |front| ==> front[k] == frames[k];
      var before := Run(g, front);
      var u := OnUpdate(before.game, frames[|frames| - 1]);
      Switched(u.game, before.calls + u.calls)
  }

  /** `calls` is a sequence of Shutdown requests and stop-start pairs in
      which each Stop names the scene running at that point, starting
      from `current` and leaving `last` running. */
  predicate Alternates(current: State, calls: seq<Call>, last: State)
    decreases |calls|
  {
    if |calls| == 0 then current == last
    else if calls[0] == Shutdown then Alternates(current, calls[1..], last)
    else
      && |calls| >= 2
      && calls[0] == StopScene(current)
      && calls[1].StartScene?
      && Alternates(calls[1].scene, calls[2..], last)
  }

  lemma {:induction false} AlternatesAppend(a: State, t1: seq<Call>, b: State, t2: seq<Call>, c: State)
    requires Alternates(a, t1, b) && Alternates(b, t2, c)
    ensures Alternates(a, t1 + t2, c)
    decreases |t1|
  {
    if |t1| == 0 {
      assert t1 + t2 == t2;
    } else {
      assert (t1 + t2)[0] == t1[0];
      if t1[0] == Shutdown {
        assert (t1 + t2)[1..] == t1[1..] + t2;
        AlternatesAppend(a, t1[1..], b, t2, c);
      } else {
        assert (t1 + t2)[1] == t1[1] && (t1 + t2)[2..] == t1[2..] + t2;
        AlternatesAppend(t1[1].scene, t1[2..], b, t2, c);
      }
    }
  }

  /** Over any run, scenes are stopped and started strictly in turn: the
      scene stopped is always the one running, each stop is followed at
      once by a start, and the last scene started is the final state. */
  lemma {:induction false} RunAlternates(g: GameState, frames: seq<bool>)
    ensures Alternates(g.state, Run(g, frames).calls, Run(g, frames).game.state)
  {
    if |frames| != 0 {
      var before := Run(g, frames[..|frames| - 1]);
      RunAlternates(g, frames[..|frames| - 1]);
      var u := OnUpdate(before.game, frames[|frames| - 1]);
      assert Alternates(before.game.state, u.calls, u.game.state) by {
        if u.calls != [] && u.calls != [Shutdown] {
          assert u.calls[2..] == [];
        } else if u.calls == [Shutdown] {
          assert u.calls[1..] == [];
        }
      }
      AlternatesAppend(g.state, before.calls, before.game.state, u.calls, u.game.state);
    }
  }

  /** From the constructed state, SETTINGS is never current and MAIN,
      once reached, is never left. */
  lemma RunNeverReachesSettings(frames: seq<bool>)
    ensures Run(Init(), frames).game.state != Settings
    ensures |frames| > 0 && Run(Init(), frames[..|frames| - 1]).game.state == Main ==>
              Run(Init(), frames).game.state == Main
  {
  }

  /** The first finished frame moves the game from the splash scene to
      MAIN: before it the splash scene stays current. */
  lemma SplashUntilFinished(frames: seq<bool>)
    ensures Run(Init(), frames).game.state == Splash <==> forall k :: 0 <= k < |frames| ==> !frames[k]
  {
  }
}
