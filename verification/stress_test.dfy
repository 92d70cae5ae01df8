// The stress simulator (`tests/stress_test.js`): 9 to 15 players, no log,
// a demon that already hunts on the first night, protection cleared at
// dawn and a nomination with a vote each day; a game still undecided after
// the round limit is an error.

module StressTest {
  import opened Wrappers
  import opened Data
  import opened SimCommon
  import opened SimLemmas

  const StressRules := Rules(false, false, true, true)

  /** The round limit `runStress` passes for each of its games. */
  const StressRounds: nat := 100

  /** The message of the error thrown at the round limit. */
  const TimeoutError: string := "超过最大回合未结束"

  /** `simulateGame` from the dealt table `st`: the decided game, or the timeout error. */
  function StressGame(st: State, draws: nat -> RoundDraws, maxRounds: nat): Result<State, string>
  {
    var p := Play(st, StressRules, draws, 0, maxRounds);
    if p.1 then Ok(p.0) else Err(TimeoutError)
  }

  method SimulateGame(d: SetupDraws, draws: nat -> RoundDraws, maxRounds: nat) returns (res: Result<State, string>)
    ensures res == StressGame(Table(9, 15, d), draws, maxRounds)
  {
    res := SimulateWith(Catalog(), d, draws, maxRounds);
  }

  /** `simulateGame` dealing from the type pools `g`. */
  method SimulateWith(g: Grouped, d: SetupDraws, draws: nat -> RoundDraws, maxRounds: nat) returns (res: Result<State, string>)
    requires CatalogGroups(g)
    ensures res == StressGame(Dealing(g, 9, 15, d), draws, maxRounds)
  {
    var ctx, _ := InitGame(g, 9, 15, d);
    res := Run(ctx, draws, maxRounds);
  }

  /** The round loop of `simulateGame` on the dealt context, then the verdict or the error. */
  method Run(ctx: Context, draws: nat -> RoundDraws, maxRounds: nat) returns (res: Result<State, string>)
    modifies ctx
    ensures res == StressGame(old(ctx.Value()), draws, maxRounds)
  {
    var ended := ctx.PlayRounds(StressRules, draws, maxRounds);
    if !ended {
      return Err(TimeoutError);
    }
    res := Ok(ctx.Value());
  }

  /**
   * A game from a freshly dealt table either is decided, for good or for
   * evil, with valid seats that kept their roles and deaths and with the
   * log still empty, or fails with the timeout error after `maxRounds`
   * rounds without a verdict.
   */
  lemma StressGameOutcome(st: State, draws: nat -> RoundDraws, maxRounds: nat)
    requires Fresh(st, 9, 15)
    ensures match StressGame(st, draws, maxRounds)
      case Ok(r) =>
        && Decided(r.winner) && ValidSeats(r.seats) && Evolves(st.seats, r.seats, StressRules)
        && r.log == [] && 1 < r.night <= 1 + maxRounds
      case Err(e) =>
        && e == TimeoutError
        && Play(st, StressRules, draws, 0, maxRounds).0.winner.None?
        && Play(st, StressRules, draws, 0, maxRounds).0.night == 1 + maxRounds
  {
    PlayOutcome(st, StressRules, draws, maxRounds);
    PlayLog(st, StressRules, draws, 0, maxRounds);
  }

  /** One game of the `runStress` loop: `simulateGame` with its round limit of 100, the throw caught as the error. */
  method StressRun(d: SetupDraws, draws: nat -> RoundDraws) returns (res: Result<State, string>)
    ensures res == StressGame(Table(9, 15, d), draws, StressRounds)
  {
    res := SimulateGame(d, draws, StressRounds);
  }

  /**
   * A game of `runStress` counts as a success with a verdict for good or
   * evil after at most 100 nights, or as a failure with the timeout error
   * after all 100 rounds.
   */
  lemma StressRunOutcome(d: SetupDraws, draws: nat -> RoundDraws)
    ensures match StressGame(Table(9, 15, d), draws, StressRounds)
      case Ok(r) => Decided(r.winner) && ValidSeats(r.seats) && 1 < r.night <= 1 + StressRounds
      case Err(e) =>
        && e == TimeoutError
        && Play(Table(9, 15, d), StressRules, draws, 0, StressRounds).0.night == 1 + StressRounds
  {
    StressGameOutcome(Table(9, 15, d), draws, StressRounds);
  }
}
