// The automated game of the test suite (`tests/gameSimulation.test.js`):
// 9 to 15 players, a log of every step, a demon that already hunts on the
// first night, protection that is never cleared, and a random execution
// each day; the loop runs while no winner is set, at most 20 rounds, and
// the test checks the seats and the recorded winner.

module GameSimulation {
  import opened Wrappers
  import opened Data
  import opened GameLogic
  import opened SimCommon
  import opened SimLemmas

  const SimRules := Rules(true, false, false, false)

  /** The defensive round limit of `simulateGame`. */
  const MaxRound: nat := 20

  /** The winner recorded when the round limit is reached. */
  const TimeoutReason: string := "平局/超时"

  /** `simulateGame` from the dealt table `st`: the opening line, the rounds while no winner is set, then the timeout. */
  function SimGame(st: State, draws: nat -> RoundDraws): State
  {
    var o := st.(log := [InitLog(|st.seats|, None)]);
    var r := Play(o, SimRules, draws, 0, MaxRound).0;
    if r.winner.Some? then r else r.(winner := Some(TimedOut(TimeoutReason)), log := r.log + [TimeoutLog])
  }

  /** The winners the test accepts. */
  predicate Accepted(w: Option<Winner>)
  {
    w == Some(Good) || w == Some(Evil) || w == Some(TimedOut(TimeoutReason))
  }

  /**
   * `assertValidSeats`: walks the seats collecting their ids and answers
   * whether each seat's id is its position, unseen so far, and each seat
   * holds a role.
   */
  method CheckSeats(seats: seq<Seat>) returns (ok: bool)
    ensures ok <==> ValidSeats(seats)
  {
    var ids: set<int> := {};
    var idx := 0;
    while idx < |seats|
      invariant 0 <= idx <= |seats|
      invariant ids == set k | 0 <= k < idx :: seats[k].id
      invariant forall k | 0 <= k < idx :: seats[k].id == k && seats[k].role.Some?
    {
      var s := seats[idx];
      if s.id != idx || s.id in ids || s.role.None? {
        return false;
      }
      ids := ids + {s.id};
      idx := idx + 1;
    }
    return true;
  }

  /** The round loop of `simulateGame`, which stops as soon as a winner is set. */
  method RunRounds(ctx: Context, draws: nat -> RoundDraws)
    requires ctx.winner.None?
    modifies ctx
    ensures ctx.Value() == Play(old(ctx.Value()), SimRules, draws, 0, MaxRound).0
  {
    ghost var v0 := ctx.Value();
    var round := 0;
    while ctx.winner.None? && round < MaxRound
      invariant round <= MaxRound
      invariant ctx.winner.None? ==> Play(ctx.Value(), SimRules, draws, round, MaxRound) == Play(v0, SimRules, draws, 0, MaxRound)
      invariant ctx.winner.Some? ==> ctx.Value() == Play(v0, SimRules, draws, 0, MaxRound).0
      decreases MaxRound - round
    {
      var stop := Round(ctx, draws, round);
      if stop {
        break;
      }
      round := round + 1;
    }
  }

  /** One pass of the loop body: the night, then the day unless the night set a winner. */
  method Round(ctx: Context, draws: nat -> RoundDraws, round: nat) returns (stop: bool)
    requires ctx.winner.None? && round < MaxRound
    modifies ctx
    ensures stop <==> ctx.winner.Some?
    ensures stop ==> ctx.Value() == Play(old(ctx.Value()), SimRules, draws, round, MaxRound).0
    ensures !stop ==> Play(ctx.Value(), SimRules, draws, round + 1, MaxRound) == Play(old(ctx.Value()), SimRules, draws, round, MaxRound)
  {
    ghost var before := ctx.Value();
    ghost var n := NightSpec(before, SimRules, draws(round).night);
    NightFlag(before, SimRules, draws(round).night);
    var ended := ctx.SimulateNight(SimRules, draws(round).night);
    assert ctx.Value() == n.0 && ended == n.1;
    if ctx.winner.Some? {
      return true;
    }
    ghost var dd := DaySpec(n.0, SimRules, draws(round).day);
    DayFlag(n.0, SimRules, draws(round).day);
    ended := ctx.SimulateDay(SimRules, draws(round).day);
    assert ctx.Value() == dd.0 && ended == dd.1;
    return ctx.winner.Some?;
  }

  /**
   * `simulateGame`: deals, then plays; the seat check on the way never
   * fails.
   */
  method SimulateGame(d: SetupDraws, draws: nat -> RoundDraws) returns (ctx: Context, seatsChecked: bool)
    ensures fresh(ctx) && seatsChecked
    ensures ctx.Value() == SimGame(Table(9, 15, d), draws)
  {
    ctx, seatsChecked := SimulateWith(Catalog(), d, draws);
  }

  /** `simulateGame` dealing from the type pools `g`. */
  method SimulateWith(g: Grouped, d: SetupDraws, draws: nat -> RoundDraws) returns (ctx: Context, seatsChecked: bool)
    requires CatalogGroups(g)
    ensures fresh(ctx) && seatsChecked
    ensures ctx.Value() == SimGame(Dealing(g, 9, 15, d), draws)
  {
    var preset;
    ctx, preset := InitGame(g, 9, 15, d);
    DealingFresh(g, 9, 15, d);
    seatsChecked := RunGame(ctx, draws);
  }

  /**
   * The body of `simulateGame` after the deal: logs the player count,
   * checks the seats, plays the rounds and records the timeout when no
   * winner was set.
   */
  method RunGame(ctx: Context, draws: nat -> RoundDraws) returns (seatsChecked: bool)
    requires Fresh(ctx.Value(), 9, 15)
    modifies ctx
    ensures seatsChecked && ctx.Value() == SimGame(old(ctx.Value()), draws)
  {
    ghost var o := ctx.Value().(log := [InitLog(|ctx.seats|, None)]);
    ctx.Push(InitLog(|ctx.seats|, None), SimRules);
    assert ctx.Value() == o;
    seatsChecked := CheckSeats(ctx.seats);
    if !seatsChecked {
      return;
    }
    RunRounds(ctx, draws);
    assert ctx.Value() == Play(o, SimRules, draws, 0, MaxRound).0;
    if ctx.winner.None? {
      ctx.winner := Some(TimedOut(TimeoutReason));
      ctx.Push(TimeoutLog, SimRules);
    }
  }

  /** The test: after the game the seats are still valid and the winner is one the test accepts. */
  method GameTest(d: SetupDraws, draws: nat -> RoundDraws) returns (passed: bool)
    ensures passed
  {
    passed := GameTestWith(Catalog(), d, draws);
  }

  /** The test, dealing from the type pools `g`. */
  method GameTestWith(g: Grouped, d: SetupDraws, draws: nat -> RoundDraws) returns (passed: bool)
    requires CatalogGroups(g)
    ensures passed
  {
    var ctx, checked := SimulateWith(g, d, draws);
    DealingFresh(g, 9, 15, d);
    SimGameOutcome(Dealing(g, 9, 15, d), draws);
    var ok := CheckSeats(ctx.seats);
    passed := checked && ok && Accepted(ctx.winner);
  }

  /**
   * A game from a freshly dealt table keeps valid seats with their roles,
   * deaths and, since protection is never cleared, protections; its
   * winner is one the test accepts, a timeout only after all 20 nights,
   * logged last.
   */
  lemma SimGameOutcome(st: State, draws: nat -> RoundDraws)
    requires Fresh(st, 9, 15)
    ensures var r := SimGame(st, draws);
      && ValidSeats(r.seats) && Evolves(st.seats, r.seats, SimRules)
      && Accepted(r.winner)
      && (!Decided(r.winner) ==> r.night == 1 + MaxRound && r.log != [] && r.log[|r.log| - 1] == TimeoutLog)
  {
    PlayOutcome(st.(log := [InitLog(|st.seats|, None)]), SimRules, draws, MaxRound);
  }

  /** The log of the game opens with the player count. */
  lemma SimGameLog(st: State, draws: nat -> RoundDraws)
    requires Fresh(st, 9, 15)
    ensures [InitLog(|st.seats|, None)] <= SimGame(st, draws).log
  {
    var o := st.(log := [InitLog(|st.seats|, None)]);
    PlayOutcome(o, SimRules, draws, MaxRound);
    var r := Play(o, SimRules, draws, 0, MaxRound).0;
    if r.winner.None? {
      PrefixTrans(o.log, r.log, r.log + [TimeoutLog]);
    }
  }
}
