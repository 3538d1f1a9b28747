/** Env (rlcard/envs/env.py): the loop that plays one game between agents
    and records, for every player, the states the player saw and the
    actions the player took.

    The game, the agents and the state extraction are abstract: a `Game`
    value holds them as functions of the game's state. */
module EnvModel {
  import opened Wrappers
  import opened Planes

  /** What the environment needs from a game with states G, observations O
      and actions A. Randomness of `init_game` is fixed in `initGame`. */
  datatype Game<!G, O, !A> = Game(
    numPlayers: nat,
    numActions: nat,
    initGame: G,               // the state init_game starts
    playerOf: G -> nat,        // get_player_id
    over: G -> bool,           // is_over
    next: (G, A) -> G,         // game.step
    back: G -> Option<G>,      // game.step_back; None is its False
    observe: (G, nat) -> O,    // _extract_state(game.get_state(p))
    decode: A -> A,            // _decode_action
    payoffs: G -> seq<int>,    // get_payoffs
    scores: G -> seq<int>,     // get_scores
    rank: G -> nat)            // a bound on the moves left, for termination

  /** The agents: whether each one gives raw actions, and the action it
      picks from an observation (`step` when training, `eval_step` when
      not). */
  datatype Agents<!O, A> = Agents(useRaw: nat -> bool, choose: (nat, O, bool) -> A)

  /** The games `run` can play to the end: the current player is always a
      player, and every move of an unfinished game brings the end nearer. */
  ghost predicate Playable<G(!new), O, A(!new)>(game: Game<G, O, A>)
  {
    && (forall g :: game.playerOf(g) < game.numPlayers)
    && (forall g, a :: !game.over(g) ==> game.rank(game.next(g, a)) < game.rank(g))
  }

  /** An entry of a trajectory: a state the player saw, or an action the
      player took. */
  datatype Entry<O, A> = Observed(obs: O) | Acted(action: A)

  /** States and actions alternate, starting with a state. */
  predicate Alternating<O, A>(t: seq<Entry<O, A>>)
  {
    forall i :: 0 <= i < |t| ==> (t[i].Observed? <==> i % 2 == 0)
  }

  /** How many of the recorded actions are player q's. */
  function CountBy<A>(recorder: seq<(nat, A)>, q: nat): nat
  {
    if recorder == [] then 0
    else CountBy(recorder[..|recorder| - 1], q) + (if recorder[|recorder| - 1].0 == q then 1 else 0)
  }

  /** The bookkeeping `run` keeps while the game goes on: each trajectory
      alternates; only the player to move (while the game is not over) has
      a state waiting for an action; and each player's trajectory holds a
      state and an action per recorded action of the player. */
  predicate Balanced<O, A, R>(trajectories: seq<seq<Entry<O, A>>>, recorder: seq<(nat, R)>, current: nat, waiting: bool)
  {
    forall q :: 0 <= q < |trajectories| ==>
      && Alternating(trajectories[q])
      && (|trajectories[q]| % 2 == 1 <==> waiting && q == current)
      && |trajectories[q]| / 2 == CountBy(recorder, q)
  }

  /** One turn of `run` keeps the bookkeeping: the player's action goes
      after the waiting state, and the next player's state is added when
      the game goes on. */
  lemma TurnBalanced<O, A, R>(trajectories: seq<seq<Entry<O, A>>>, recorder: seq<(nat, R)>,
                              p: nat, action: A, recorded: R, p': nat, goesOn: bool, obs: O)
    requires p < |trajectories| && p' < |trajectories|
    requires Balanced(trajectories, recorder, p, true)
    ensures var t1 := trajectories[p := trajectories[p] + [Acted(action)]];
            var t2 := if goesOn then t1[p' := t1[p'] + [Observed(obs)]] else t1;
            Balanced(t2, recorder + [(p, recorded)], p', goesOn)
  {
    var rec := recorder + [(p, recorded)];
    assert rec[..|rec| - 1] == recorder;
    var t1 := trajectories[p := trajectories[p] + [Acted(action)]];
    assert Alternating(t1[p]) by {
      var t := trajectories[p];
      assert forall i :: 0 <= i < |t| ==> t1[p][i] == t[i];
    }
    if goesOn {
      var t2 := t1[p' := t1[p'] + [Observed(obs)]];
      assert Alternating(t2[p']) by {
        var t := t1[p'];
        assert forall i :: 0 <= i < |t| ==> t2[p'][i] == t[i];
      }
    }
  }

  /** A trajectory that ends with an action takes the final state next. */
  lemma FinalAlternating<O, A>(t: seq<Entry<O, A>>, obs: O)
    requires Alternating(t) && |t| % 2 == 0
    ensures Alternating(t + [Observed(obs)])
  {
    assert forall i :: 0 <= i < |t| ==> (t + [Observed(obs)])[i] == t[i];
  }

  /** The result of step_back: Python raises when stepping back is off, and
      returns False when the game cannot step back. */
  datatype StepBackResult<O> = StepBackOff | CannotStepBack | SteppedBack(obs: O, playerId: nat)

  class Env<G(!new), O, A(!new)> {
    const game: Game<G, O, A>
    const allowStepBack: bool
    var state: G
    var timestep: nat
    var actionRecorder: seq<(nat, A)>

    /** __init__, with the game as it stands and the step-back switch. */
    constructor (g: Game<G, O, A>, current: G, stepBack: bool)
      ensures game == g && state == current && allowStepBack == stepBack
      ensures timestep == 0 && actionRecorder == []
    {
      game := g;
      state := current;
      allowStepBack := stepBack;
      timestep := 0;
      actionRecorder := [];
    }

    /** reset: start a new game and forget the recorded actions. */
    method Reset() returns (obs: O, playerId: nat)
      modifies this
      ensures state == game.initGame && actionRecorder == [] && timestep == old(timestep)
      ensures playerId == game.playerOf(state) && obs == game.observe(state, playerId)
    {
      state := game.initGame;
      actionRecorder := [];
      playerId := game.playerOf(state);
      obs := game.observe(state, playerId);
    }

    /** step: decode the action unless it is raw, count the step, record
        who took which action, and move the game on. */
    method Step(action: A, raw: bool) returns (obs: O, playerId: nat)
      modifies this
      ensures var a := if raw then action else game.decode(action);
              && timestep == old(timestep) + 1
              && actionRecorder == old(actionRecorder) + [(game.playerOf(old(state)), a)]
              && state == game.next(old(state), a)
      ensures playerId == game.playerOf(state) && obs == game.observe(state, playerId)
    {
      var a := action;
      if !raw {
        a := game.decode(action);
      }
      timestep := timestep + 1;
      actionRecorder := actionRecorder + [(game.playerOf(state), a)];
      state := game.next(state, a);
      playerId := game.playerOf(state);
      obs := game.observe(state, playerId);
    }

    /** step_back. */
    method StepBack() returns (r: StepBackResult<O>)
      modifies this
      ensures !allowStepBack ==> r == StepBackOff && state == old(state)
      ensures allowStepBack && game.back(old(state)).None? ==> r == CannotStepBack && state == old(state)
      ensures allowStepBack && game.back(old(state)).Some? ==>
                state == game.back(old(state)).value &&
                r == SteppedBack(game.observe(state, game.playerOf(state)), game.playerOf(state))
      ensures timestep == old(timestep) && actionRecorder == old(actionRecorder)
    {
      if !allowStepBack {
        return StepBackOff;
      }
      var previous := game.back(state);
      if previous.None? {
        return CannotStepBack;
      }
      state := previous.value;
      var playerId := game.playerOf(state);
      r := SteppedBack(game.observe(state, playerId), playerId);
    }

    /** get_action_feature: a zero vector of num_actions entries with a 1 at
        `action` (Python indexing: a negative action counts from the end,
        one out of range raises). */
    function ActionFeature(action: int): (v: Option<seq<int>>)
      ensures v.Some? <==> -(game.numActions as int) <= action < game.numActions
      ensures v.Some? ==> |v.value| == game.numActions &&
                          OneHot(v.value, if action < 0 then action + game.numActions else action)
    {
      OneHotAt(game.numActions, action)
    }

    /** The closing loop of run: every player's trajectory gets the state
        that player sees at the end of the game. */
    method AppendFinal(played: seq<seq<Entry<O, A>>>) returns (trajectories: seq<seq<Entry<O, A>>>)
      requires |played| == game.numPlayers
      ensures |trajectories| == game.numPlayers
      ensures forall q :: 0 <= q < game.numPlayers ==>
                trajectories[q] == played[q] + [Observed(game.observe(state, q))]
    {
      trajectories := played;
      for q := 0 to game.numPlayers
        invariant |trajectories| == game.numPlayers
        invariant forall r :: 0 <= r < q ==> trajectories[r] == played[r] + [Observed(game.observe(state, r))]
        invariant forall r :: q <= r < game.numPlayers ==> trajectories[r] == played[r]
      {
        trajectories := trajectories[q := trajectories[q] + [Observed(game.observe(state, q))]];
      }
    }

    /** run: play one game; each player's trajectory alternates the states
        the player saw with the actions the player took, and ends with the
        final state. Unless the game is over as soon as it starts, every
        trajectory holds 2k+1 entries, k being the player's actions. */
    method Run(agents: Agents<O, A>, isTraining: bool) returns (trajectories: seq<seq<Entry<O, A>>>, payoffs: seq<int>)
      requires Playable(game)
      modifies this
      ensures |trajectories| == game.numPlayers
      ensures game.over(state)
      ensures forall q :: 0 <= q < |trajectories| ==>
                |trajectories[q]| >= 1 && trajectories[q][|trajectories[q]| - 1] == Observed(game.observe(state, q))
      ensures !game.over(game.initGame) ==>
                forall q :: 0 <= q < |trajectories| ==>
                  Alternating(trajectories[q]) && |trajectories[q]| == 2 * CountBy(actionRecorder, q) + 1
      ensures game.over(game.initGame) ==>
                state == game.initGame && actionRecorder == [] &&
                forall q :: 0 <= q < |trajectories| ==>
                  trajectories[q] == (if q == game.playerOf(state) then [Observed(game.observe(state, q))] else []) +
                                     [Observed(game.observe(state, q))]
      ensures timestep == old(timestep) + |actionRecorder|
      ensures payoffs == if isTraining then game.scores(state) else game.payoffs(state)
    {
      trajectories := seq(game.numPlayers, _ => []);
      var obs, playerId := Reset();
      ghost var startTime := timestep;
      ghost var startedOver := game.over(state);
      trajectories := trajectories[playerId := trajectories[playerId] + [Observed(obs)]];
      while !game.over(state)
        invariant |trajectories| == game.numPlayers
        invariant playerId == game.playerOf(state) && playerId < game.numPlayers
        invariant obs == game.observe(state, playerId)
        invariant startedOver ==>
                    && game.over(state) && state == game.initGame && actionRecorder == []
                    && forall q :: 0 <= q < |trajectories| ==>
                         trajectories[q] == if q == playerId then [Observed(obs)] else []
        invariant !startedOver ==> Balanced(trajectories, actionRecorder, playerId, !game.over(state))
        invariant timestep == startTime + |actionRecorder|
        decreases game.rank(state)
      {
        var action := agents.choose(playerId, obs, isTraining);
        ghost var recorded := actionRecorder;
        var nextObs, nextPlayer := Step(action, agents.useRaw(playerId));
        TurnBalanced(trajectories, recorded, playerId, action, actionRecorder[|recorded|].1,
                     nextPlayer, !game.over(state), nextObs);
        trajectories := trajectories[playerId := trajectories[playerId] + [Acted(action)]];
        obs := nextObs;
        playerId := nextPlayer;
        if !game.over(state) {
          trajectories := trajectories[playerId := trajectories[playerId] + [Observed(obs)]];
        }
      }
      ghost var played := trajectories;
      if !startedOver {
        forall q | 0 <= q < game.numPlayers
          ensures Alternating(played[q] + [Observed(game.observe(state, q))])
        {
          FinalAlternating(played[q], game.observe(state, q));
        }
      }
      trajectories := AppendFinal(trajectories);
      if !isTraining {
        payoffs := game.payoffs(state);
      } else {
        payoffs := game.scores(state);
      }
    }
  }
}
