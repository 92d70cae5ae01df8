// The single-game report (`tests/single_sim_run.js`): 5 to 15 players, a
// log of every step, a demon that rests on the first night, protection
// cleared at dawn and a nomination with a vote each day; a game still
// undecided after the round limit is stopped and marked as timed out.

module SingleSimRun {
  import opened Wrappers
  import opened Data
  import opened GameLogic
  import opened SimCommon
  import opened SimLemmas

  const SingleRules := Rules(true, true, true, true)

  /** The round limit `runOnce` passes. */
  const DefaultRounds: nat := 50

  /** The winner recorded when the round limit is reached. */
  const TimeoutReason: string := "未结束/超时"

  /** The role names of the assignment line, in seat order (a seat without a role has an empty name). */
  function RoleNames(seats: seq<Seat>): (r: seq<string>)
    ensures |r| == |seats|
    ensures forall i | 0 <= i < |seats| :: seats[i].role.Some? ==> r[i] == seats[i].role.value.name
  {
    seq(|seats|, i requires 0 <= i < |seats| => if seats[i].role.Some? then seats[i].role.value.name else "")
  }

  /** The dealt table with its two opening log lines: the player count with its preset, and the assignment. */
  function Opening(st: State, preset: Preset): State
  {
    st.(log := [InitLog(|st.seats|, Some(preset)), AssignmentLog(RoleNames(st.seats))])
  }

  /** `simulateGame` from the dealt table `st`: the opening, at most `maxRounds` rounds, then the timeout when no side won. */
  function SingleGame(st: State, preset: Preset, draws: nat -> RoundDraws, maxRounds: nat): State
  {
    var p := Play(Opening(st, preset), SingleRules, draws, 0, maxRounds);
    if p.1 then p.0 else p.0.(winner := Some(TimedOut(TimeoutReason)), log := p.0.log + [TimeoutLog])
  }

  method SimulateGame(d: SetupDraws, draws: nat -> RoundDraws, maxRounds: nat) returns (ctx: Context)
    ensures fresh(ctx)
    ensures ctx.Value() == SingleGame(Table(5, 15, d), Presets[Total(5, 15, d) - 5], draws, maxRounds)
  {
    ctx := SimulateWith(Catalog(), d, draws, maxRounds);
  }

  /** `simulateGame` dealing from the type pools `g`. */
  method SimulateWith(g: Grouped, d: SetupDraws, draws: nat -> RoundDraws, maxRounds: nat) returns (ctx: Context)
    requires CatalogGroups(g)
    ensures fresh(ctx)
    ensures ctx.Value() == SingleGame(Dealing(g, 5, 15, d), Presets[Total(5, 15, d) - 5], draws, maxRounds)
  {
    var preset;
    ctx, preset := InitGame(g, 5, 15, d);
    DealingFresh(g, 5, 15, d);
    Report(ctx, preset, draws, maxRounds);
  }

  /** The body of `simulateGame` after the deal: the opening lines, the rounds, the timeout. */
  method Report(ctx: Context, preset: Preset, draws: nat -> RoundDraws, maxRounds: nat)
    requires ctx.log == []
    modifies ctx
    ensures ctx.Value() == SingleGame(old(ctx.Value()), preset, draws, maxRounds)
  {
    ghost var o := Opening(ctx.Value(), preset);
    ctx.Push(InitLog(|ctx.seats|, Some(preset)), SingleRules);
    ctx.Push(AssignmentLog(RoleNames(ctx.seats)), SingleRules);
    assert ctx.Value() == o;
    var ended := ctx.PlayRounds(SingleRules, draws, maxRounds);
    ghost var p := Play(o, SingleRules, draws, 0, maxRounds);
    assert ctx.Value() == p.0 && ended == p.1;
    if !ended {
      ctx.winner := Some(TimedOut(TimeoutReason));
      ctx.Push(TimeoutLog, SingleRules);
    }
  }

  /**
   * Every report from a freshly dealt table ends with a winner: good or
   * evil when the win check decided, otherwise the timeout, logged last,
   * after exactly `maxRounds` nights.
   */
  lemma SingleGameWinner(st: State, preset: Preset, draws: nat -> RoundDraws, maxRounds: nat)
    requires Fresh(st, 5, 15)
    ensures var r := SingleGame(st, preset, draws, maxRounds);
      && (!Decided(r.winner) ==>
            r.winner == Some(TimedOut(TimeoutReason)) && r.night == 1 + maxRounds
            && r.log != [] && r.log[|r.log| - 1] == TimeoutLog)
      && 1 <= r.night <= 1 + maxRounds
  {
    PlayOutcome(Opening(st, preset), SingleRules, draws, maxRounds);
  }

  /** The seats of a report stay valid and keep their roles, and nobody returns from the dead. */
  lemma SingleGameSeats(st: State, preset: Preset, draws: nat -> RoundDraws, maxRounds: nat)
    requires Fresh(st, 5, 15)
    ensures var r := SingleGame(st, preset, draws, maxRounds);
      |r.seats| == |st.seats| && ValidSeats(r.seats) && Evolves(st.seats, r.seats, SingleRules)
  {
    PlayOutcome(Opening(st, preset), SingleRules, draws, maxRounds);
  }

  /** The log of a report opens with the player count and its preset, then the assignment. */
  lemma SingleGameLog(st: State, preset: Preset, draws: nat -> RoundDraws, maxRounds: nat)
    requires Fresh(st, 5, 15)
    ensures [InitLog(|st.seats|, Some(preset)), AssignmentLog(RoleNames(st.seats))] <= SingleGame(st, preset, draws, maxRounds).log
  {
    var o := Opening(st, preset);
    PlayOutcome(o, SingleRules, draws, maxRounds);
    var p := Play(o, SingleRules, draws, 0, maxRounds);
    var r := SingleGame(st, preset, draws, maxRounds);
    if p.1 {
      assert r == p.0;
    } else {
      assert r.log == p.0.log + [TimeoutLog];
      PrefixTrans(o.log, p.0.log, r.log);
    }
  }

  /** The demon rests on the first night, so every seat of a freshly dealt table is still alive after it. */
  lemma SingleFirstNightSpares(st: State, preset: Preset, draws: nat -> RoundDraws)
    requires Fresh(st, 5, 15)
    ensures var r := NightBody(Opening(st, preset), SingleRules, draws(0).night);
      |r.seats| == |st.seats| && forall i | 0 <= i < |r.seats| :: !r.seats[i].isDead
  {
    var o := Opening(st, preset);
    assert o.seats == st.seats && o.night == 1;
    FirstNightNoDeath(o, SingleRules, draws(0).night);
  }

  /** `runOnce`: one game with the round limit of 50. */
  method RunOnce(d: SetupDraws, draws: nat -> RoundDraws) returns (ctx: Context)
    ensures ctx.Value() == SingleGame(Table(5, 15, d), Presets[Total(5, 15, d) - 5], draws, DefaultRounds)
  {
    ctx := SimulateGame(d, draws, DefaultRounds);
  }

  /**
   * The game `runOnce` reports ends with good or evil within 50 nights, or
   * with the timeout after night 50, logged last.
   */
  lemma RunOnceWinner(d: SetupDraws, draws: nat -> RoundDraws)
    ensures var r := SingleGame(Table(5, 15, d), Presets[Total(5, 15, d) - 5], draws, DefaultRounds);
      && 1 <= r.night <= 1 + DefaultRounds
      && (!Decided(r.winner) ==>
            r.winner == Some(TimedOut(TimeoutReason)) && r.night == 1 + DefaultRounds
            && r.log != [] && r.log[|r.log| - 1] == TimeoutLog)
  {
    SingleGameWinner(Table(5, 15, d), Presets[Total(5, 15, d) - 5], draws, DefaultRounds);
  }
}
