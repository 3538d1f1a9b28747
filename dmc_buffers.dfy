/** The actor side of DMC training (rlcard/agents/dmc_agent/utils.py): after
    each game, `act` appends one row per decision of each player to six
    staging lists, and whenever more than T rows are waiting it copies the
    first T into a buffer slot taken from the free queue and hands the slot
    to the learner through the full queue; `get_batch` takes slots off the
    full queue, stacks them, and gives them back to the free queue.

    The queues are sequences (their front is the next `get`), the shared
    buffers are arrays indexed [player, slot, row]. Floats are integers. */
module DmcBuffers {
  import opened Wrappers
  import opened Planes
  import opened EnvModel

  /** The state dictionary of a trajectory: its 'x_batch' and 'z_batch'. */
  datatype Observation = Observation(x: seq<int>, z: seq<int>)

  type Trajectory = seq<Entry<Observation, int>>

  /** `len(traj[:-1]) // 2`: the number of decisions in the trajectory. */
  function Rows(traj: Trajectory): (k: nat)
    ensures |traj| >= 1 ==> |traj| == 2 * k + 1 || |traj| == 2 * k + 2
    ensures |traj| <= 2 ==> k == 0
  {
    if traj == [] then 0 else (|traj| - 1) / 2
  }

  /** Decision i as the staging loop reads it: a state at 2i, and at 2i+1
      an action id that get_action_feature can index (numpy raises on any
      other). */
  predicate Decision(traj: Trajectory, i: nat, numActions: nat)
  {
    && 2 * i + 1 < |traj|
    && traj[2 * i].Observed? && traj[2 * i + 1].Acted?
    && PyIndex(traj[2 * i + 1].action, numActions).Some?
  }

  /** Every entry the staging loop reads is of the kind it expects. Entries
      past the decisions, such as the second state of the `[s0, final]`
      trajectory of a game over at reset, are not read. */
  predicate Readable(traj: Trajectory, numActions: nat)
  {
    forall i :: 0 <= i < Rows(traj) ==> Decision(traj, i, numActions)
  }

  /** Staging reads the trajectory only when the lists grow (`diff > 0`). */
  predicate Stageable(st: Staging, traj: Trajectory, numActions: nat)
  {
    st.size + Rows(traj) - |st.target| > 0 ==> Readable(traj, numActions)
  }

  /** One player's six staging lists and `size[p]`. */
  datatype Staging = Staging(
    done: seq<bool>,
    episodeReturn: seq<int>,
    target: seq<int>,
    obsX: seq<seq<int>>,
    obsZ: seq<seq<int>>,
    obsAction: seq<seq<int>>,
    size: int)

  /** All six lists hold `size` rows. */
  predicate Aligned(st: Staging)
  {
    && st.size >= 0
    && |st.done| == st.size && |st.episodeReturn| == st.size && |st.target| == st.size
    && |st.obsX| == st.size && |st.obsZ| == st.size && |st.obsAction| == st.size
  }

  const EmptyStaging := Staging([], [], [], [], [], [], 0)

  // ------------------------------------------------------- staging rows

  function DoneRows(diff: nat): seq<bool>
    requires diff >= 1
  {
    seq(diff - 1, _ => false) + [true]
  }

  function ReturnRows(diff: nat, payoff: int): seq<int>
    requires diff >= 1
  {
    seq(diff - 1, _ => 0) + [payoff]
  }

  /** The 'x_batch' of every state followed by an action. */
  function XRows(traj: Trajectory, numActions: nat): seq<seq<int>>
    requires Readable(traj, numActions)
  {
    seq(Rows(traj), i requires 0 <= i < Rows(traj) && Decision(traj, i, numActions) => traj[2 * i].obs.x)
  }

  function ZRows(traj: Trajectory, numActions: nat): seq<seq<int>>
    requires Readable(traj, numActions)
  {
    seq(Rows(traj), i requires 0 <= i < Rows(traj) && Decision(traj, i, numActions) => traj[2 * i].obs.z)
  }

  /** env.get_action_feature of every action: one-hot over the actions,
      at the action's Python index. */
  function ActionRows(traj: Trajectory, numActions: nat): seq<seq<int>>
    requires Readable(traj, numActions)
  {
    seq(Rows(traj), i requires 0 <= i < Rows(traj) && Decision(traj, i, numActions) => OneHotAt(numActions, traj[2 * i + 1].action).value)
  }

  /** Lines 100-115 of `act` for one player: size grows by the player's
      decisions, and the lists grow by `size - len(target)` rows: done is
      False but on the last, the return is 0 but on the last, which holds
      the payoff, and the target is the payoff on every row. */
  function Extend(st: Staging, traj: Trajectory, payoff: int, numActions: nat): Staging
    requires Stageable(st, traj, numActions)
  {
    var size := st.size + Rows(traj);
    var diff := size - |st.target|;
    if diff > 0 then
      Staging(st.done + DoneRows(diff), st.episodeReturn + ReturnRows(diff, payoff),
              st.target + seq(diff, _ => payoff), st.obsX + XRows(traj, numActions),
              st.obsZ + ZRows(traj, numActions), st.obsAction + ActionRows(traj, numActions), size)
    else
      st.(size := size)
  }

  /** The lists after a window of T rows has gone to a buffer slot. */
  function Drop(st: Staging, T: nat): Staging
    requires Aligned(st) && st.size > T
  {
    Staging(st.done[T..], st.episodeReturn[T..], st.target[T..], st.obsX[T..], st.obsZ[T..],
            st.obsAction[T..], st.size - T)
  }

  /** A player's lists after one game once the window, if any, is cut. */
  function Settle(st: Staging, T: nat): Staging
    requires Aligned(st)
  {
    if st.size > T then Drop(st, T) else st
  }

  /** Lines 100-115 of `act`, with the loop over the trajectory's states. */
  method StageEpisode(st: Staging, traj: Trajectory, payoff: int, numActions: nat) returns (r: Staging)
    requires Stageable(st, traj, numActions)
    ensures r == Extend(st, traj, payoff, numActions)
  {
    var size := st.size + |traj[..if traj == [] then 0 else |traj| - 1]| / 2;
    r := st.(size := size);
    var diff := size - |st.target|;
    if diff > 0 {
      r := r.(done := st.done + seq(diff - 1, _ => false) + [true]);
      r := r.(episodeReturn := st.episodeReturn + seq(diff - 1, _ => 0) + [payoff]);
      r := r.(target := st.target + seq(diff, _ => payoff));
      var i := 0;
      while i < |traj| - 2
        invariant i % 2 == 0 && 0 <= i <= if |traj| < 2 then 0 else |traj| - 1
        invariant r.obsX == st.obsX + XRows(traj, numActions)[..i / 2]
        invariant r.obsZ == st.obsZ + ZRows(traj, numActions)[..i / 2]
        invariant r.obsAction == st.obsAction + ActionRows(traj, numActions)[..i / 2]
        invariant r.done == st.done + DoneRows(diff) && r.size == size
        invariant r.episodeReturn == st.episodeReturn + ReturnRows(diff, payoff)
        invariant r.target == st.target + seq(diff, _ => payoff)
        decreases |traj| - i
      {
        assert Decision(traj, i / 2, numActions);
        var obs := traj[i].obs;
        var feature := OneHotAt(numActions, traj[i + 1].action).value;
        assert XRows(traj, numActions)[..i / 2 + 1] == XRows(traj, numActions)[..i / 2] + [obs.x];
        assert ZRows(traj, numActions)[..i / 2 + 1] == ZRows(traj, numActions)[..i / 2] + [obs.z];
        assert ActionRows(traj, numActions)[..i / 2 + 1] == ActionRows(traj, numActions)[..i / 2] + [feature];
        r := r.(obsX := r.obsX + [obs.x], obsZ := r.obsZ + [obs.z], obsAction := r.obsAction + [feature]);
        i := i + 2;
      }
      assert i / 2 == Rows(traj);
      assert XRows(traj, numActions)[..i / 2] == XRows(traj, numActions);
      assert ZRows(traj, numActions)[..i / 2] == ZRows(traj, numActions);
      assert ActionRows(traj, numActions)[..i / 2] == ActionRows(traj, numActions);
    }
  }

  // ------------------------------------------------------------- queues

  /** The slot indices a free queue holds (None is no slot). */
  function Slots(q: seq<Option<nat>>): multiset<nat>
  {
    if q == [] then multiset{}
    else Slots(q[..|q| - 1]) + (if q[|q| - 1].Some? then multiset{q[|q| - 1].value} else multiset{})
  }

  function Somes(indices: seq<nat>): (q: seq<Option<nat>>)
    ensures |q| == |indices| && forall i :: 0 <= i < |indices| ==> q[i] == Some(indices[i])
  {
    seq(|indices|, i requires 0 <= i < |indices| => Some(indices[i]))
  }

  datatype CommitOutcome = Committed(index: nat) | Stopped | Blocked

  /** get_batch's result: for each key, row t of column j is row t of slot
      indices[j] (torch.stack along dimension 1). */
  datatype Batch = Batch(
    done: seq<seq<bool>>,
    episodeReturn: seq<seq<int>>,
    target: seq<seq<int>>,
    obsX: seq<seq<seq<int>>>,
    obsZ: seq<seq<seq<int>>>,
    obsAction: seq<seq<seq<int>>>)

  predicate Shaped<X>(a: array3<X>, players: nat, slots: nat, rows: nat)
  {
    a.Length0 == players && a.Length1 == slots && a.Length2 == rows
  }

  /** The queues and the shared buffers of all players. */
  /** `buf[p][slot][t] = rows[t]` for every row t of one buffer. */
  method CopyRows<X>(a: array3<X>, p: nat, slot: nat, rows: seq<X>)
    requires p < a.Length0 && slot < a.Length1 && a.Length2 <= |rows|
    modifies a
    ensures forall q, m, u :: 0 <= q < a.Length0 && 0 <= m < a.Length1 && 0 <= u < a.Length2 ==>
              a[q, m, u] == (if q == p && m == slot then rows[u] else old(a[q, m, u]))
  {
    for t := 0 to a.Length2
      invariant forall q, m, u :: 0 <= q < a.Length0 && 0 <= m < a.Length1 && 0 <= u < a.Length2 ==>
                  a[q, m, u] == (if q == p && m == slot && u < t then rows[u] else old(a[q, m, u]))
    {
      a[p, slot, t] := rows[t];
    }
  }

  class Pool {
    const numPlayers: nat
    const numBuffers: nat
    const T: nat
    const done: array3<bool>
    const episodeReturn: array3<int>
    const target: array3<int>
    const obsX: array3<seq<int>>
    const obsZ: array3<seq<int>>
    const obsAction: array3<seq<int>>
    var free: seq<seq<Option<nat>>>
    var full: seq<seq<nat>>

    /** Each key has a buffer per player and slot, of T rows; the buffers
        are distinct; both queues of a player hold slot indices only. */
    ghost predicate Valid()
      reads this
    {
      && |free| == numPlayers && |full| == numPlayers
      && Shaped(done, numPlayers, numBuffers, T) && Shaped(episodeReturn, numPlayers, numBuffers, T)
      && Shaped(target, numPlayers, numBuffers, T) && Shaped(obsX, numPlayers, numBuffers, T)
      && Shaped(obsZ, numPlayers, numBuffers, T) && Shaped(obsAction, numPlayers, numBuffers, T)
      && episodeReturn != target && obsX != obsZ && obsX != obsAction && obsZ != obsAction
      && (forall p, i :: 0 <= p < numPlayers && 0 <= i < |free[p]| && free[p][i].Some? ==>
            free[p][i].value < numBuffers)
      && (forall p, i :: 0 <= p < numPlayers && 0 <= i < |full[p]| ==> full[p][i] < numBuffers)
    }

    /** The buffers (their contents are not modelled at creation) and the
        queues as the trainer fills them. */
    constructor (players: nat, buffers: nat, rows: nat, freeQueues: seq<seq<Option<nat>>>)
      requires |freeQueues| == players
      requires forall p, i :: 0 <= p < players && 0 <= i < |freeQueues[p]| && freeQueues[p][i].Some? ==>
                 freeQueues[p][i].value < buffers
      ensures Valid() && free == freeQueues && full == seq(players, _ => [])
      ensures numPlayers == players && numBuffers == buffers && T == rows
    {
      numPlayers, numBuffers, T := players, buffers, rows;
      done := new bool[players, buffers, rows]((_, _, _) => false);
      episodeReturn := new int[players, buffers, rows]((_, _, _) => 0);
      target := new int[players, buffers, rows]((_, _, _) => 0);
      obsX := new seq<int>[players, buffers, rows]((_, _, _) => []);
      obsZ := new seq<int>[players, buffers, rows]((_, _, _) => []);
      obsAction := new seq<int>[players, buffers, rows]((_, _, _) => []);
      free := freeQueues;
      full := seq(players, _ => []);
    }

    /** Lines 117-135 of `act`: take a slot off player p's free queue; a
        None stops the commit (and the rest of the game's players); else
        copy the first T rows of each list into the slot, put the slot on
        the full queue, and drop those rows. An empty free queue blocks;
        here it returns Blocked with nothing changed. */
    method Commit(p: nat, st: Staging) returns (outcome: CommitOutcome, st': Staging)
      requires Valid() && p < numPlayers && Aligned(st) && st.size > T
      modifies this, done, episodeReturn, target, obsX, obsZ, obsAction
      ensures Valid()
      ensures old(free[p]) == [] ==> outcome == Blocked && free == old(free) && full == old(full) && st' == st
      ensures old(free[p]) != [] && old(free[p][0]).None? ==>
                outcome == Stopped && free == old(free)[p := old(free[p][1..])] && full == old(full) && st' == st
      ensures old(free[p]) != [] && old(free[p][0]).Some? ==>
                var slot := old(free[p][0]).value;
                && outcome == Committed(slot)
                && free == old(free)[p := old(free[p][1..])]
                && full == old(full)[p := old(full[p]) + [slot]]
                && st' == Drop(st, T)
      ensures outcome.Committed? ==>
                forall q, m, t :: 0 <= q < numPlayers && 0 <= m < numBuffers && 0 <= t < T ==>
                  var here := q == p && m == outcome.index;
                  && done[q, m, t] == (if here then st.done[t] else old(done[q, m, t]))
                  && episodeReturn[q, m, t] == (if here then st.episodeReturn[t] else old(episodeReturn[q, m, t]))
                  && target[q, m, t] == (if here then st.target[t] else old(target[q, m, t]))
                  && obsX[q, m, t] == (if here then st.obsX[t] else old(obsX[q, m, t]))
                  && obsZ[q, m, t] == (if here then st.obsZ[t] else old(obsZ[q, m, t]))
                  && obsAction[q, m, t] == (if here then st.obsAction[t] else old(obsAction[q, m, t]))
      ensures !outcome.Committed? ==>
                unchanged(done, episodeReturn, target) && unchanged(obsX, obsZ, obsAction)
    {
      if free[p] == [] {
        return Blocked, st;
      }
      var index := free[p][0];
      free := free[p := free[p][1..]];
      if index.None? {
        return Stopped, st;
      }
      var slot := index.value;
      CopyWindow(p, slot, st);
      full := full[p := full[p] + [slot]];
      st' := Drop(st, T);
      outcome := Committed(slot);
    }

    /** The `for t in range(T)` loop copying the window into the slot. */
    method CopyWindow(p: nat, slot: nat, st: Staging)
      requires Valid() && p < numPlayers && slot < numBuffers && Aligned(st) && st.size > T
      modifies done, episodeReturn, target, obsX, obsZ, obsAction
      ensures forall q, m, t :: 0 <= q < numPlayers && 0 <= m < numBuffers && 0 <= t < T ==>
                var here := q == p && m == slot;
                && done[q, m, t] == (if here then st.done[t] else old(done[q, m, t]))
                && episodeReturn[q, m, t] == (if here then st.episodeReturn[t] else old(episodeReturn[q, m, t]))
                && target[q, m, t] == (if here then st.target[t] else old(target[q, m, t]))
                && obsX[q, m, t] == (if here then st.obsX[t] else old(obsX[q, m, t]))
                && obsZ[q, m, t] == (if here then st.obsZ[t] else old(obsZ[q, m, t]))
                && obsAction[q, m, t] == (if here then st.obsAction[t] else old(obsAction[q, m, t]))
    {
      // The six writes of each step touch six distinct buffers, so copying
      // one buffer after the other leaves the same contents.
      CopyRows(done, p, slot, st.done);
      CopyRows(episodeReturn, p, slot, st.episodeReturn);
      CopyRows(target, p, slot, st.target);
      CopyRows(obsX, p, slot, st.obsX);
      CopyRows(obsZ, p, slot, st.obsZ);
      CopyRows(obsAction, p, slot, st.obsAction);
    }

    /** Lines 38 and 43-44 of get_batch: the first batchSize slots of the
        full queue go, in order, to the back of the free queue. */
    method Recycle(p: nat, batchSize: nat)
      requires Valid() && p < numPlayers && batchSize <= |full[p]|
      modifies this
      ensures Valid()
      ensures full == old(full)[p := old(full[p])[batchSize..]]
      ensures free == old(free)[p := old(free[p]) + Somes(old(full[p])[..batchSize])]
      ensures Slots(free[p]) + multiset(full[p]) == old(Slots(free[p]) + multiset(full[p]))
    {
      var indices := full[p][..batchSize];
      GetBatchConserves(free[p], full[p], batchSize);
      full := full[p := full[p][batchSize..]];
      var q := PutAll(free[p], indices);
      assert forall i :: 0 <= i < |q| && q[i].Some? ==> q[i].value < numBuffers by {
        forall i | 0 <= i < |q| && q[i].Some? ensures q[i].value < numBuffers {
          if i >= |free[p]| {
            assert q[i].value == indices[i - |free[p]|] == old(full[p])[i - |free[p]|];
          }
        }
      }
      free := free[p := q];
    }

    /** The `for m in indices: free_queue.put(m)` loop. */
    static method PutAll(queue: seq<Option<nat>>, indices: seq<nat>) returns (q: seq<Option<nat>>)
      ensures q == queue + Somes(indices)
    {
      q := queue;
      for j := 0 to |indices|
        invariant q == queue + Somes(indices[..j])
      {
        assert Somes(indices[..j + 1]) == Somes(indices[..j]) + [Some(indices[j])];
        q := q + [Some(indices[j])];
      }
      assert indices[..|indices|] == indices;
    }

    /** get_batch for player p: take batchSize slots off the full queue,
        stack their rows, and put the slots back on the free queue. A full
        queue holding fewer slots blocks; here it returns None with nothing
        changed. */
    method GetBatch(p: nat, batchSize: nat) returns (batch: Option<Batch>)
      requires Valid() && p < numPlayers
      modifies this
      ensures Valid()
      ensures Slots(free[p]) + multiset(full[p]) == old(Slots(free[p]) + multiset(full[p]))
      ensures |old(full[p])| < batchSize ==> batch.None? && free == old(free) && full == old(full)
      ensures |old(full[p])| >= batchSize ==>
                var indices := old(full[p])[..batchSize];
                && full == old(full)[p := old(full[p])[batchSize..]]
                && free == old(free)[p := old(free[p]) + Somes(indices)]
                && batch.Some?
                && var b := batch.value;
                   && |b.done| == T && |b.episodeReturn| == T && |b.target| == T
                   && |b.obsX| == T && |b.obsZ| == T && |b.obsAction| == T
                   && forall t :: 0 <= t < T ==>
                        && |b.done[t]| == batchSize && |b.episodeReturn[t]| == batchSize
                        && |b.target[t]| == batchSize && |b.obsX[t]| == batchSize
                        && |b.obsZ[t]| == batchSize && |b.obsAction[t]| == batchSize
                        && forall j :: 0 <= j < batchSize ==>
                             && b.done[t][j] == done[p, indices[j], t]
                             && b.episodeReturn[t][j] == episodeReturn[p, indices[j], t]
                             && b.target[t][j] == target[p, indices[j], t]
                             && b.obsX[t][j] == obsX[p, indices[j], t]
                             && b.obsZ[t][j] == obsZ[p, indices[j], t]
                             && b.obsAction[t][j] == obsAction[p, indices[j], t]
    {
      if |full[p]| < batchSize {
        return None;
      }
      var indices := full[p][..batchSize];
      assert forall j :: 0 <= j < batchSize ==> indices[j] < numBuffers;
      var b := Batch(
        seq(T, t requires 0 <= t < T reads done =>
          seq(batchSize, j requires 0 <= j < batchSize reads done => done[p, indices[j], t])),
        seq(T, t requires 0 <= t < T reads episodeReturn =>
          seq(batchSize, j requires 0 <= j < batchSize reads episodeReturn => episodeReturn[p, indices[j], t])),
        seq(T, t requires 0 <= t < T reads target =>
          seq(batchSize, j requires 0 <= j < batchSize reads target => target[p, indices[j], t])),
        seq(T, t requires 0 <= t < T reads obsX =>
          seq(batchSize, j requires 0 <= j < batchSize reads obsX => obsX[p, indices[j], t])),
        seq(T, t requires 0 <= t < T reads obsZ =>
          seq(batchSize, j requires 0 <= j < batchSize reads obsZ => obsZ[p, indices[j], t])),
        seq(T, t requires 0 <= t < T reads obsAction =>
          seq(batchSize, j requires 0 <= j < batchSize reads obsAction => obsAction[p, indices[j], t])));
      Recycle(p, batchSize);
      batch := Some(b);
    }
  }

  /** The loop of `act` over the players after one game: stage each
      player's rows and cut a window when more than T are waiting. The
      outcome says whether a None from a free queue stopped the loop, or an
      empty free queue blocked it, and at which player. */
  datatype EpisodeOutcome = Finished | StoppedAt(player: nat) | BlockedAt(player: nat)

  /** The player the loop stopped or blocked at (numPlayers when it ran to the end). */
  function LastPlayer(outcome: EpisodeOutcome, n: nat): nat
  {
    match outcome
    case Finished => n
    case StoppedAt(p) => p
    case BlockedAt(p) => p
  }

  // ----------------------------------------------- the loop, on values

  /** Above T rows a player's turn takes the front of its free queue: an
      empty queue blocks the loop, a None stops it. */
  predicate Blocks(free: seq<Option<nat>>, ext: Staging, T: nat)
  {
    ext.size > T && free == []
  }

  predicate Halts(free: seq<Option<nat>>, ext: Staging, T: nat)
  {
    ext.size > T && (free == [] || free[0].None?)
  }

  /** The free queue after the turn: its front is gone once taken. */
  function FreeAfter(free: seq<Option<nat>>, ext: Staging, T: nat): seq<Option<nat>>
  {
    if ext.size > T && free != [] then free[1..] else free
  }

  /** The full queue after the turn: a slot taken from the free queue goes
      to its back. */
  function FullAfter(free: seq<Option<nat>>, full: seq<nat>, ext: Staging, T: nat): seq<nat>
  {
    if ext.size > T && free != [] && free[0].Some? then full + [free[0].value] else full
  }

  /** The staging lists and both queues of every player. */
  datatype ActorState = ActorState(staging: seq<Staging>, free: seq<seq<Option<nat>>>, full: seq<seq<nat>>)

  predicate Shapes(s: ActorState, n: nat)
  {
    && |s.staging| == n && |s.free| == n && |s.full| == n
    && forall q :: 0 <= q < n ==> Aligned(s.staging[q])
  }

  /** One game as `act` reads it: a trajectory and a payoff per player. */
  predicate GameReadable(trajectories: seq<Trajectory>, payoffs: seq<int>, n: nat, numActions: nat)
  {
    && |trajectories| == n && |payoffs| == n
    && forall q :: 0 <= q < n ==> Readable(trajectories[q], numActions)
  }

  /** Every player's lists once the game is staged, before any cut. */
  function StagedAll(staging: seq<Staging>, trajectories: seq<Trajectory>, payoffs: seq<int>, numActions: nat)
    : (exts: seq<Staging>)
    requires |staging| == |trajectories| && forall q :: 0 <= q < |staging| ==> Aligned(staging[q])
    requires GameReadable(trajectories, payoffs, |trajectories|, numActions)
    ensures |exts| == |trajectories|
    ensures forall q :: 0 <= q < |exts| ==>
              exts[q] == Extend(staging[q], trajectories[q], payoffs[q], numActions) && Aligned(exts[q])
  {
    ExtendAllAligned(staging, trajectories, payoffs, numActions);
    seq(|trajectories|, q requires 0 <= q < |trajectories| => Extend(staging[q], trajectories[q], payoffs[q], numActions))
  }

  predicate AllAligned(exts: seq<Staging>)
  {
    forall q :: 0 <= q < |exts| ==> Aligned(exts[q])
  }

  /** Every player's lists once its window, if any, is cut. */
  function SettledAll(exts: seq<Staging>, T: nat): (cuts: seq<Staging>)
    requires AllAligned(exts)
    ensures |cuts| == |exts| && AllAligned(cuts)
    ensures forall q :: 0 <= q < |exts| ==> cuts[q] == Settle(exts[q], T)
  {
    SettleAllAligned(exts, T);
    seq(|exts|, q requires 0 <= q < |exts| => Settle(exts[q], T))
  }

  /** The staged and the cut lists of every player, for one game. */
  predicate Prepared(exts: seq<Staging>, cuts: seq<Staging>)
  {
    |cuts| == |exts| && AllAligned(exts) && AllAligned(cuts)
  }

  /** Player p's turn, its rows staged as exts[p] and cut as cuts[p]:
      above T rows the front of its free queue is taken, and a slot moves
      to the full queue and the window is cut. */
  function Turn(s: ActorState, exts: seq<Staging>, cuts: seq<Staging>, T: nat, p: nat): (s': ActorState)
    requires Shapes(s, |exts|) && Prepared(exts, cuts) && p < |exts|
    ensures Shapes(s', |exts|)
  {
    var ext := exts[p];
    ActorState(s.staging[p := if Halts(s.free[p], ext, T) then ext else cuts[p]],
               s.free[p := FreeAfter(s.free[p], ext, T)],
               s.full[p := FullAfter(s.free[p], s.full[p], ext, T)])
  }

  /** The loop of `act` over players p, p+1, ... of one game: it ends at
      the first player whose turn halts, or after the last player. */
  function EpisodeFrom(s: ActorState, exts: seq<Staging>, cuts: seq<Staging>, T: nat, p: nat)
    : (r: (ActorState, EpisodeOutcome))
    requires Shapes(s, |exts|) && Prepared(exts, cuts) && p <= |exts|
    ensures Shapes(r.0, |exts|)
    decreases |exts| - p
  {
    if p == |exts| then (s, Finished)
    else
      var s' := Turn(s, exts, cuts, T, p);
      if Halts(s.free[p], exts[p], T) then (s', if Blocks(s.free[p], exts[p], T) then BlockedAt(p) else StoppedAt(p))
      else EpisodeFrom(s', exts, cuts, T, p + 1)
  }

  /** One game of `act`, from the first player. */
  function Episode(s: ActorState, trajectories: seq<Trajectory>, payoffs: seq<int>, numActions: nat, T: nat)
    : (r: (ActorState, EpisodeOutcome))
    requires Shapes(s, |trajectories|) && GameReadable(trajectories, payoffs, |trajectories|, numActions)
    ensures Shapes(r.0, |trajectories|)
  {
    var exts := StagedAll(s.staging, trajectories, payoffs, numActions);
    EpisodeFrom(s, exts, SettledAll(exts, T), T, 0)
  }

  /** `act`'s `while True` loop over the games from game g on: a blocked
      free queue ends the run. */
  function ActFrom(s: ActorState, games: seq<(seq<Trajectory>, seq<int>)>, n: nat, numActions: nat, T: nat, g: nat)
    : (r: ActorState)
    requires Shapes(s, n) && g <= |games|
    requires forall h :: 0 <= h < |games| ==> GameReadable(games[h].0, games[h].1, n, numActions)
    ensures Shapes(r, n)
    decreases |games| - g
  {
    if g == |games| then s
    else
      assert GameReadable(games[g].0, games[g].1, n, numActions);
      var e := Episode(s, games[g].0, games[g].1, numActions, T);
      if e.1.BlockedAt? then e.0 else ActFrom(e.0, games, n, numActions, T, g + 1)
  }

  // ------------------------------------------------ the loop, imperative

  /** One player's turn in the loop of `act`: stage the rows, then, when more
      than T are waiting, commit a window. `halted` says the loop stops here
      (a None on the free queue, or `blocked` on an empty one). */
  method HandlePlayer(pool: Pool, p: nat, st: Staging, traj: Trajectory, payoff: int, numActions: nat)
    returns (st': Staging, halted: bool, blocked: bool)
    requires pool.Valid() && p < pool.numPlayers && Aligned(st) && Readable(traj, numActions)
    modifies pool, pool.done, pool.episodeReturn, pool.target, pool.obsX, pool.obsZ, pool.obsAction
    ensures pool.Valid() && Aligned(Extend(st, traj, payoff, numActions))
    ensures st' == if halted then Extend(st, traj, payoff, numActions) else Settle(Extend(st, traj, payoff, numActions), pool.T)
    ensures blocked ==> halted
    ensures var ext := Extend(st, traj, payoff, numActions);
            && halted == Halts(old(pool.free[p]), ext, pool.T)
            && blocked == Blocks(old(pool.free[p]), ext, pool.T)
            && pool.free == old(pool.free)[p := FreeAfter(old(pool.free[p]), ext, pool.T)]
            && pool.full == old(pool.full)[p := FullAfter(old(pool.free[p]), old(pool.full[p]), ext, pool.T)]
    ensures Slots(pool.free[p]) + multiset(pool.full[p]) == old(Slots(pool.free[p]) + multiset(pool.full[p]))
  {
    ExtendAligned(st, traj, payoff, numActions);
    var staged := StageEpisode(st, traj, payoff, numActions);
    TurnConserves(pool.free[p], pool.full[p], staged, pool.T);
    st', halted, blocked := CutWindow(pool, p, staged);
  }

  /** Lines 117-135 of `act` for player p once the rows are staged: above
      T rows, commit a window. */
  method CutWindow(pool: Pool, p: nat, staged: Staging) returns (st': Staging, halted: bool, blocked: bool)
    requires pool.Valid() && p < pool.numPlayers && Aligned(staged)
    modifies pool, pool.done, pool.episodeReturn, pool.target, pool.obsX, pool.obsZ, pool.obsAction
    ensures pool.Valid()
    ensures halted == Halts(old(pool.free[p]), staged, pool.T) && blocked == Blocks(old(pool.free[p]), staged, pool.T)
    ensures st' == if halted then staged else Settle(staged, pool.T)
    ensures pool.free == old(pool.free)[p := FreeAfter(old(pool.free[p]), staged, pool.T)]
    ensures pool.full == old(pool.full)[p := FullAfter(old(pool.free[p]), old(pool.full[p]), staged, pool.T)]
  {
    st', halted, blocked := staged, false, false;
    if staged.size > pool.T {
      var r, rest := pool.Commit(p, staged);
      halted, blocked := !r.Committed?, r.Blocked?;
      if r.Committed? {
        st' := rest;
      }
    }
  }

  /** The loop of `act` over the players of one game. */
  method ProcessEpisode(pool: Pool, staging: seq<Staging>, trajectories: seq<Trajectory>, payoffs: seq<int>,
                        numActions: nat)
    returns (staging': seq<Staging>, outcome: EpisodeOutcome)
    requires pool.Valid()
    requires |staging| == pool.numPlayers && forall q :: 0 <= q < |staging| ==> Aligned(staging[q])
    requires GameReadable(trajectories, payoffs, pool.numPlayers, numActions)
    modifies pool, pool.done, pool.episodeReturn, pool.target, pool.obsX, pool.obsZ, pool.obsAction
    ensures pool.Valid() && |staging'| == pool.numPlayers
    ensures (ActorState(staging', pool.free, pool.full), outcome) ==
            Episode(ActorState(staging, old(pool.free), old(pool.full)), trajectories, payoffs, numActions, pool.T)
    ensures LastPlayer(outcome, pool.numPlayers) <= pool.numPlayers
    ensures outcome != Finished ==> LastPlayer(outcome, pool.numPlayers) < pool.numPlayers
    ensures forall q :: 0 <= q < |staging'| ==>
              var extended := Extend(staging[q], trajectories[q], payoffs[q], numActions);
              && Aligned(extended)
              && staging'[q] == (if q < LastPlayer(outcome, pool.numPlayers) then Settle(extended, pool.T)
                                 else if q == LastPlayer(outcome, pool.numPlayers) then extended
                                 else staging[q])
    ensures forall q :: 0 <= q < pool.numPlayers ==>
              Slots(pool.free[q]) + multiset(pool.full[q]) == old(Slots(pool.free[q]) + multiset(pool.full[q]))
  {
    ghost var s0 := ActorState(staging, pool.free, pool.full);
    ghost var exts := StagedAll(staging, trajectories, payoffs, numActions);
    ghost var cuts := SettledAll(exts, pool.T);
    ghost var goal := EpisodeFrom(s0, exts, cuts, pool.T, 0);
    staging' := staging;
    outcome := Finished;
    var p := 0;
    while p < pool.numPlayers
      invariant pool.Valid() && p <= pool.numPlayers && outcome == Finished
      invariant Shapes(ActorState(staging', pool.free, pool.full), pool.numPlayers)
      invariant forall q :: p <= q < pool.numPlayers ==> staging'[q] == staging[q]
      invariant EpisodeFrom(ActorState(staging', pool.free, pool.full), exts, cuts, pool.T, p) == goal
    {
      ghost var cur := ActorState(staging', pool.free, pool.full);
      var st, halted, blocked := HandlePlayer(pool, p, staging'[p], trajectories[p], payoffs[p], numActions);
      staging' := staging'[p := st];
      assert ActorState(staging', pool.free, pool.full) == Turn(cur, exts, cuts, pool.T, p);
      if halted {
        outcome := if blocked then BlockedAt(p) else StoppedAt(p);
        assert (ActorState(staging', pool.free, pool.full), outcome) == goal;
        break;
      }
      p := p + 1;
    }
    EpisodeMeaning(s0, trajectories, payoffs, numActions, pool.T);
  }

  /** `act` over a run of games (its `while True` loop, here over the games
      given): the staging lists start empty and carry over from game to
      game; a blocked free queue ends the run. */
  method Act(pool: Pool, games: seq<(seq<Trajectory>, seq<int>)>, numActions: nat) returns (staging: seq<Staging>)
    requires pool.Valid()
    requires forall g :: 0 <= g < |games| ==> GameReadable(games[g].0, games[g].1, pool.numPlayers, numActions)
    modifies pool, pool.done, pool.episodeReturn, pool.target, pool.obsX, pool.obsZ, pool.obsAction
    ensures pool.Valid() && |staging| == pool.numPlayers
    ensures ActorState(staging, pool.free, pool.full) ==
            ActFrom(ActorState(seq(pool.numPlayers, _ => EmptyStaging), old(pool.free), old(pool.full)),
                    games, pool.numPlayers, numActions, pool.T, 0)
    ensures forall q :: 0 <= q < pool.numPlayers ==>
              Aligned(staging[q]) &&
              Slots(pool.free[q]) + multiset(pool.full[q]) == old(Slots(pool.free[q]) + multiset(pool.full[q]))
  {
    staging := seq(pool.numPlayers, _ => EmptyStaging);
    ghost var s0 := ActorState(staging, pool.free, pool.full);
    ghost var goal := ActFrom(s0, games, pool.numPlayers, numActions, pool.T, 0);
    for g := 0 to |games|
      invariant pool.Valid()
      invariant Shapes(ActorState(staging, pool.free, pool.full), pool.numPlayers)
      invariant ActFrom(ActorState(staging, pool.free, pool.full), games, pool.numPlayers, numActions, pool.T, g) == goal
    {
      var outcome;
      staging, outcome := ProcessEpisode(pool, staging, games[g].0, games[g].1, numActions);
      if outcome.BlockedAt? {
        break;
      }
    }
    ActConserves(s0, games, pool.numPlayers, numActions, pool.T, 0);
  }

  // ------------------------------------------------------------- lemmas

  /** Staging keeps the lists aligned: after a game every list of a player
      holds `size[p]` rows, `size[p]` having grown by the player's
      decisions. */
  lemma ExtendAligned(st: Staging, traj: Trajectory, payoff: int, numActions: nat)
    requires Aligned(st) && Readable(traj, numActions)
    ensures var r := Extend(st, traj, payoff, numActions);
            Aligned(r) && r.size == st.size + Rows(traj)
  {
  }

  /** Cutting keeps every player's lists aligned. */
  lemma SettleAllAligned(exts: seq<Staging>, T: nat)
    requires AllAligned(exts)
    ensures forall q :: 0 <= q < |exts| ==> Aligned(Settle(exts[q], T))
  {
    forall q | 0 <= q < |exts| ensures Aligned(Settle(exts[q], T)) {
      SettleAligned(exts[q], T);
    }
  }

  /** Staging a game keeps every player's lists aligned. */
  lemma ExtendAllAligned(staging: seq<Staging>, trajectories: seq<Trajectory>, payoffs: seq<int>, numActions: nat)
    requires |staging| == |trajectories| && forall q :: 0 <= q < |staging| ==> Aligned(staging[q])
    requires GameReadable(trajectories, payoffs, |trajectories|, numActions)
    ensures forall q :: 0 <= q < |staging| ==> Aligned(Extend(staging[q], trajectories[q], payoffs[q], numActions))
  {
    forall q | 0 <= q < |staging|
      ensures Aligned(Extend(staging[q], trajectories[q], payoffs[q], numActions))
    {
      ExtendAligned(staging[q], trajectories[q], payoffs[q], numActions);
    }
  }

  /** Taking the front of a free queue takes its slot, if it holds one. */
  lemma {:induction false} SlotsFront(q: seq<Option<nat>>)
    requires q != []
    ensures Slots(q) == Slots(q[1..]) + (if q[0].Some? then multiset{q[0].value} else multiset{})
    decreases |q|
  {
    if |q| > 1 {
      var init := q[..|q| - 1];
      assert init[1..] == q[1..][..|q[1..]| - 1];
      assert init[0] == q[0];
      SlotsFront(init);
    } else {
      assert q[1..] == [] && q[..0] == [];
    }
  }

  /** Putting slots at the back of a free queue adds them to its slots. */
  lemma {:induction false} SlotsAppend(q: seq<Option<nat>>, indices: seq<nat>)
    ensures Slots(q + Somes(indices)) == Slots(q) + multiset(indices)
    decreases |indices|
  {
    if indices != [] {
      var last := indices[|indices| - 1];
      var init := indices[..|indices| - 1];
      assert Somes(indices) == Somes(init) + [Some(last)];
      assert (q + Somes(indices))[..|q + Somes(indices)| - 1] == q + Somes(init);
      assert indices == init + [last];
      SlotsAppend(q, init);
    } else {
      assert q + Somes(indices) == q;
    }
  }

  /** The rows a player already had are kept by a game's staging. */
  lemma ExtendKeeps(st: Staging, traj: Trajectory, payoff: int, numActions: nat)
    requires Aligned(st) && Readable(traj, numActions)
    ensures var r := Extend(st, traj, payoff, numActions);
            && Aligned(r) && r.size >= st.size
            && r.done[..st.size] == st.done && r.episodeReturn[..st.size] == st.episodeReturn
            && r.target[..st.size] == st.target && r.obsX[..st.size] == st.obsX
            && r.obsZ[..st.size] == st.obsZ && r.obsAction[..st.size] == st.obsAction
  {
    ExtendAligned(st, traj, payoff, numActions);
  }

  /** The flags of the rows one game adds for a player with k > 0
      decisions: done is set on the last new row only; the return is 0 but
      on the last new row, where it is the payoff; the target is the payoff
      on every new row. */
  lemma ExtendFlags(st: Staging, traj: Trajectory, payoff: int, numActions: nat)
    requires Aligned(st) && Readable(traj, numActions) && Rows(traj) > 0
    ensures var r := Extend(st, traj, payoff, numActions);
            var k := Rows(traj);
            && Aligned(r) && r.size == st.size + k
            && forall i :: st.size <= i < r.size ==>
                 && r.done[i] == (i == r.size - 1)
                 && r.episodeReturn[i] == (if i == r.size - 1 then payoff else 0)
                 && r.target[i] == payoff
  {
    ExtendAligned(st, traj, payoff, numActions);
  }

  /** The observation rows one game adds for a player: the states the
      player acted in and the one-hot features of the actions taken. */
  lemma ExtendObs(st: Staging, traj: Trajectory, payoff: int, numActions: nat)
    requires Aligned(st) && Readable(traj, numActions)
    ensures var r := Extend(st, traj, payoff, numActions);
            var k := Rows(traj);
            && Aligned(r) && r.size == st.size + k && |traj| >= 2 * k
            && forall i :: 0 <= i < k ==>
                 && Decision(traj, i, numActions)
                 && r.obsX[st.size + i] == traj[2 * i].obs.x
                 && r.obsZ[st.size + i] == traj[2 * i].obs.z
                 && |r.obsAction[st.size + i]| == numActions
                 && OneHot(r.obsAction[st.size + i], PyIndex(traj[2 * i + 1].action, numActions).value)
  {
    var r := Extend(st, traj, payoff, numActions);
    var k := Rows(traj);
    ExtendAligned(st, traj, payoff, numActions);
    if k > 0 {
      assert r.obsX == st.obsX + XRows(traj, numActions);
      assert r.obsZ == st.obsZ + ZRows(traj, numActions);
      assert r.obsAction == st.obsAction + ActionRows(traj, numActions);
    }
    forall i | 0 <= i < k
      ensures Decision(traj, i, numActions)
      ensures r.obsX[st.size + i] == traj[2 * i].obs.x && r.obsZ[st.size + i] == traj[2 * i].obs.z
      ensures |r.obsAction[st.size + i]| == numActions
      ensures OneHot(r.obsAction[st.size + i], PyIndex(traj[2 * i + 1].action, numActions).value)
    {
      assert r.obsX[st.size + i] == XRows(traj, numActions)[i];
      assert r.obsZ[st.size + i] == ZRows(traj, numActions)[i];
      assert r.obsAction[st.size + i] == ActionRows(traj, numActions)[i];
      assert Decision(traj, i, numActions);
      assert r.obsAction[st.size + i] == OneHotAt(numActions, traj[2 * i + 1].action).value;
    }
  }

  /** A player who took no action in the game (its trajectory has at most
      two entries, as the `[s0, final]` of a game over at reset) gets no new
      rows, whatever the entries are. */
  lemma ExtendNoDecision(st: Staging, traj: Trajectory, payoff: int, numActions: nat)
    requires Aligned(st) && |traj| <= 2
    ensures Stageable(st, traj, numActions)
    ensures Extend(st, traj, payoff, numActions) == st
  {
  }

  /** With aligned lists, `diff` is the number of decisions, so staging
      reads the trajectory exactly when it has decisions to read. */
  lemma StageableAligned(st: Staging, traj: Trajectory, numActions: nat)
    requires Aligned(st)
    ensures Stageable(st, traj, numActions) <==> Readable(traj, numActions)
  {
  }

  /** The trajectories `run` returns (2k+1 entries for k actions) give the
      player one row per action. */
  lemma RowsOfRun(traj: Trajectory, recorder: seq<(nat, int)>, q: nat)
    requires |traj| == 2 * CountBy(recorder, q) + 1
    ensures Rows(traj) == CountBy(recorder, q)
  {
  }

  /** Cutting a window keeps the lists aligned and the rows after the first
      T in order, and lowers size by T. */
  lemma DropKeeps(st: Staging, T: nat)
    requires Aligned(st) && st.size > T
    ensures var r := Drop(st, T);
            && Aligned(r) && r.size == st.size - T
            && forall i :: 0 <= i < r.size ==>
                 && r.done[i] == st.done[T + i] && r.episodeReturn[i] == st.episodeReturn[T + i]
                 && r.target[i] == st.target[T + i] && r.obsX[i] == st.obsX[T + i]
                 && r.obsZ[i] == st.obsZ[T + i] && r.obsAction[i] == st.obsAction[T + i]
  {
  }

  /** A commit moves a slot from the free queue to the full queue (or drops
      a None): the slots a player owns stay the same. */
  lemma CommitConserves(free: seq<Option<nat>>, full: seq<nat>)
    requires free != []
    ensures var moved := if free[0].Some? then [free[0].value] else [];
            Slots(free[1..]) + multiset(full + moved) == Slots(free) + multiset(full)
  {
    SlotsFront(free);
  }

  /** get_batch moves the first batchSize slots of the full queue to the back
      of the free queue: the slots a player owns stay the same. */
  lemma GetBatchConserves(free: seq<Option<nat>>, full: seq<nat>, batchSize: nat)
    requires batchSize <= |full|
    ensures Slots(free + Somes(full[..batchSize])) + multiset(full[batchSize..]) == Slots(free) + multiset(full)
  {
    SlotsAppend(free, full[..batchSize]);
    assert full == full[..batchSize] + full[batchSize..];
  }

  lemma SettleAligned(st: Staging, T: nat)
    requires Aligned(st)
    ensures Aligned(Settle(st, T))
  {
  }

  // ------------------------------------------ lemmas about the loop

  /** A turn keeps the slots a player owns: a slot taken from the free
      queue goes to the full queue, and a None is dropped. */
  lemma TurnConserves(free: seq<Option<nat>>, full: seq<nat>, ext: Staging, T: nat)
    ensures Slots(FreeAfter(free, ext, T)) + multiset(FullAfter(free, full, ext, T)) == Slots(free) + multiset(full)
  {
    if ext.size > T && free != [] {
      CommitConserves(free, full);
    }
  }

  /** Where the loop over the players of one game ends: it passes every
      player whose turn does not halt, and stops at the first that does,
      blocked on an empty free queue or stopped by a None. */
  lemma {:induction false} EpisodeOutcomeSpec(s: ActorState, exts: seq<Staging>, cuts: seq<Staging>, T: nat, p: nat)
    requires Shapes(s, |exts|) && Prepared(exts, cuts) && p <= |exts|
    ensures var out := EpisodeFrom(s, exts, cuts, T, p).1;
            var last := LastPlayer(out, |exts|);
            && p <= last <= |exts| && (out == Finished <==> last == |exts|)
            && (forall q :: p <= q < last ==> !Halts(s.free[q], exts[q], T))
            && (last < |exts| ==> Halts(s.free[last], exts[last], T))
            && (out.BlockedAt? <==> last < |exts| && Blocks(s.free[last], exts[last], T))
    decreases |exts| - p
  {
    if p < |exts| && !Halts(s.free[p], exts[p], T) {
      var s' := Turn(s, exts, cuts, T, p);
      EpisodeOutcomeSpec(s', exts, cuts, T, p + 1);
      assert forall q :: p < q < |exts| ==> s'.free[q] == s.free[q];
    }
  }

  /** The staging lists the loop over players p, p+1, ... leaves: players
      before p and after the last one reached are untouched; a player it
      passes is staged and cut; the player it halts at is staged but not
      cut. */
  lemma {:induction false} EpisodeStagingSpec(s: ActorState, exts: seq<Staging>, cuts: seq<Staging>, T: nat, p: nat)
    requires Shapes(s, |exts|) && Prepared(exts, cuts) && p <= |exts|
    ensures var r := EpisodeFrom(s, exts, cuts, T, p);
            var last := LastPlayer(r.1, |exts|);
            forall q :: 0 <= q < |exts| ==>
              r.0.staging[q] == (if q < p || last < q then s.staging[q] else if q < last then cuts[q] else exts[q])
    decreases |exts| - p
  {
    if p < |exts| {
      var r := EpisodeFrom(s, exts, cuts, T, p);
      var s' := Turn(s, exts, cuts, T, p);
      var last := LastPlayer(r.1, |exts|);
      if Halts(s.free[p], exts[p], T) {
        assert r.0 == s' && last == p;
        assert s'.staging == s.staging[p := exts[p]];
      } else {
        assert r == EpisodeFrom(s', exts, cuts, T, p + 1);
        EpisodeStagingSpec(s', exts, cuts, T, p + 1);
        EpisodeOutcomeSpec(s', exts, cuts, T, p + 1);
        StagingShift(s.staging, s'.staging, r.0.staging, exts, cuts, p, last);
      }
    }
  }

  /** Staging player p and then, by the loop from p+1, players up to last,
      is the loop from p. */
  lemma StagingShift(staging: seq<Staging>, staging': seq<Staging>, final: seq<Staging>,
                     exts: seq<Staging>, cuts: seq<Staging>, p: nat, last: nat)
    requires |staging| == |staging'| == |final| == |exts| == |cuts|
    requires p < last && p < |exts| && staging' == staging[p := cuts[p]]
    requires forall q :: 0 <= q < |exts| ==>
               final[q] == (if q < p + 1 || last < q then staging'[q] else if q < last then cuts[q] else exts[q])
    ensures forall q :: 0 <= q < |exts| ==>
              final[q] == (if q < p || last < q then staging[q] else if q < last then cuts[q] else exts[q])
  {
  }

  /** The free queues the loop over players p, p+1, ... leaves: every
      player it reaches has its queue as its turn leaves it, the others
      keep theirs. */
  lemma {:induction false} EpisodeFreeSpec(s: ActorState, exts: seq<Staging>, cuts: seq<Staging>, T: nat, p: nat)
    requires Shapes(s, |exts|) && Prepared(exts, cuts) && p <= |exts|
    ensures var r := EpisodeFrom(s, exts, cuts, T, p);
            var last := LastPlayer(r.1, |exts|);
            forall q :: 0 <= q < |exts| ==>
              r.0.free[q] == (if p <= q <= last then FreeAfter(s.free[q], exts[q], T) else s.free[q])
    decreases |exts| - p
  {
    if p < |exts| && !Halts(s.free[p], exts[p], T) {
      var s' := Turn(s, exts, cuts, T, p);
      EpisodeFreeSpec(s', exts, cuts, T, p + 1);
      EpisodeOutcomeSpec(s', exts, cuts, T, p + 1);
    }
  }

  /** The full queues the loop over players p, p+1, ... leaves: a player
      it reaches gains the slot its turn commits, the others keep theirs. */
  lemma {:induction false} EpisodeFullSpec(s: ActorState, exts: seq<Staging>, cuts: seq<Staging>, T: nat, p: nat)
    requires Shapes(s, |exts|) && Prepared(exts, cuts) && p <= |exts|
    ensures var r := EpisodeFrom(s, exts, cuts, T, p);
            var last := LastPlayer(r.1, |exts|);
            forall q :: 0 <= q < |exts| ==>
              r.0.full[q] == (if p <= q <= last then FullAfter(s.free[q], s.full[q], exts[q], T) else s.full[q])
    decreases |exts| - p
  {
    if p < |exts| && !Halts(s.free[p], exts[p], T) {
      var s' := Turn(s, exts, cuts, T, p);
      EpisodeFullSpec(s', exts, cuts, T, p + 1);
      EpisodeOutcomeSpec(s', exts, cuts, T, p + 1);
    }
  }

  /** One game from the first player: where the loop ends, the staging
      lists it leaves, and the slots every player keeps. */
  lemma EpisodeMeaning(s: ActorState, trajectories: seq<Trajectory>, payoffs: seq<int>, numActions: nat, T: nat)
    requires Shapes(s, |trajectories|) && GameReadable(trajectories, payoffs, |trajectories|, numActions)
    ensures var r := Episode(s, trajectories, payoffs, numActions, T);
            var last := LastPlayer(r.1, |trajectories|);
            && last <= |trajectories| && (r.1 != Finished ==> last < |trajectories|)
            && forall q :: 0 <= q < |trajectories| ==>
                 var ext := Extend(s.staging[q], trajectories[q], payoffs[q], numActions);
                 && Aligned(ext)
                 && r.0.staging[q] == (if q < last then Settle(ext, T) else if q == last then ext else s.staging[q])
                 && Slots(r.0.free[q]) + multiset(r.0.full[q]) == Slots(s.free[q]) + multiset(s.full[q])
  {
    var exts := StagedAll(s.staging, trajectories, payoffs, numActions);
    EpisodeFromMeaning(s, exts, SettledAll(exts, T), T);
  }

  /** The loop from the first player, over lists already staged and cut. */
  lemma EpisodeFromMeaning(s: ActorState, exts: seq<Staging>, cuts: seq<Staging>, T: nat)
    requires Shapes(s, |exts|) && Prepared(exts, cuts)
    ensures var r := EpisodeFrom(s, exts, cuts, T, 0);
            var last := LastPlayer(r.1, |exts|);
            && last <= |exts| && (r.1 != Finished ==> last < |exts|)
            && forall q :: 0 <= q < |exts| ==>
                 && r.0.staging[q] == (if q < last then cuts[q] else if q == last then exts[q] else s.staging[q])
                 && Slots(r.0.free[q]) + multiset(r.0.full[q]) == Slots(s.free[q]) + multiset(s.full[q])
  {
    EpisodeOutcomeSpec(s, exts, cuts, T, 0);
    EpisodeStagingSpec(s, exts, cuts, T, 0);
    EpisodeFreeSpec(s, exts, cuts, T, 0);
    EpisodeFullSpec(s, exts, cuts, T, 0);
    forall q | 0 <= q < |exts|
      ensures var r := EpisodeFrom(s, exts, cuts, T, 0).0;
              Slots(r.free[q]) + multiset(r.full[q]) == Slots(s.free[q]) + multiset(s.full[q])
    {
      TurnConserves(s.free[q], s.full[q], exts[q], T);
    }
  }

  /** Over a run of games every player keeps its slots. */
  lemma {:induction false} ActConserves(s: ActorState, games: seq<(seq<Trajectory>, seq<int>)>, n: nat,
                                        numActions: nat, T: nat, g: nat)
    requires Shapes(s, n) && g <= |games|
    requires forall h :: 0 <= h < |games| ==> GameReadable(games[h].0, games[h].1, n, numActions)
    ensures var r := ActFrom(s, games, n, numActions, T, g);
            forall q :: 0 <= q < n ==> Slots(r.free[q]) + multiset(r.full[q]) == Slots(s.free[q]) + multiset(s.full[q])
    decreases |games| - g
  {
    if g < |games| {
      var e := Episode(s, games[g].0, games[g].1, numActions, T);
      EpisodeMeaning(s, games[g].0, games[g].1, numActions, T);
      if !e.1.BlockedAt? {
        ActConserves(e.0, games, n, numActions, T, g + 1);
      }
    }
  }
}
