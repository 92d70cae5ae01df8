// What the simulator steps guarantee: the targets of the night actions, the
// win check's decision, the two kinds of day, and what a whole game keeps
// (seat identities, roles, deaths and, without clearing, protections).

module SimLemmas {
  import opened Wrappers
  import opened Data
  import opened GameLogic
  import opened SimCommon

  // ---- Seats over time ----

  /**
   * `b` is a later state of the seats `a`: the same seats with the same ids,
   * roles and allegiance flags; a death is never undone and, when the rules
   * do not clear protection, neither is a protection.
   */
  predicate Evolves(a: seq<Seat>, b: seq<Seat>, rules: Rules)
  {
    |a| == |b| && forall i | 0 <= i < |a| ::
      && b[i].id == a[i].id && b[i].role == a[i].role
      && b[i].isDemonSuccessor == a[i].isDemonSuccessor && b[i].isEvilConverted == a[i].isEvilConverted
      && (a[i].isDead ==> b[i].isDead)
      && (!rules.clearProtection && a[i].isProtected ==> b[i].isProtected)
  }

  /** The number of living seats. */
  function Living(seats: seq<Seat>): nat
  {
    |Where(seats, Alive)|
  }

  /** Later seats keep the seat list valid. */
  lemma EvolvesKeepsValid(a: seq<Seat>, b: seq<Seat>, rules: Rules)
    requires Evolves(a, b, rules) && ValidSeats(a)
    ensures ValidSeats(b)
  {
    forall i, j | 0 <= i < j < |b|
      ensures b[i].id != b[j].id
    {
      assert a[i].id != a[j].id;
    }
  }

  /** Deaths are never undone, so the number of living seats never grows. */
  lemma {:induction false} EvolvesAlive(a: seq<Seat>, b: seq<Seat>, rules: Rules)
    requires Evolves(a, b, rules)
    ensures Living(b) <= Living(a)
  {
    if a != [] {
      var n := |a| - 1;
      assert Evolves(a[..n], b[..n], rules);
      EvolvesAlive(a[..n], b[..n], rules);
    }
  }

  /** With no demon and no successor seated, no later state has a living demon. */
  lemma EvolvesNoDemon(a: seq<Seat>, b: seq<Seat>, rules: Rules)
    requires Evolves(a, b, rules)
    requires forall i | 0 <= i < |a| :: !HasRoleType(a[i], Demon) && !a[i].isDemonSuccessor
    ensures Where(b, AliveDemon) == []
  {
    forall i | 0 <= i < |b|
      ensures !Matches(AliveDemon, b[i])
    {
      assert b[i].role == a[i].role;
    }
    WhereNone(b, AliveDemon);
  }

  /** No seat matches, so none is found. */
  lemma {:induction false} WhereNone(seats: seq<Seat>, f: Filter)
    requires forall i | 0 <= i < |seats| :: !Matches(f, seats[i])
    ensures Where(seats, f) == []
  {
    if seats != [] {
      WhereNone(seats[..|seats| - 1], f);
    }
  }

  // ---- Night actions ----

  /** What an action does to its target: poison it, protect it for `me`, or kill it. */
  function Mark(act: Act, me: int, s: Seat): Seat
  {
    match act
    case PoisonAct => s.(isPoisoned := true)
    case ProtectAct => s.(isProtected := true, protectedBy := Some(me))
    case KillAct => s.(isDead := true)
  }

  /** The seats an action may target: any other living seat, or for the demon one that is also unprotected and not the soldier. */
  function Targets(act: Act, me: int): Filter
  {
    if act == KillAct then Killable(me) else AliveOther(me)
  }

  /** Whether the demon rests: only under the first-night rule, on the first night. */
  predicate Rests(act: Act, rules: Rules, night: int)
  {
    act == KillAct && rules.suppressFirstNight && night <= 1
  }

  /**
   * One action changes at most one seat: when the actor does not rest and a
   * target exists, exactly one target is marked and nothing else changes;
   * otherwise the seats are unchanged, and a demon that finds no target logs
   * the failure.
   */
  lemma ActStepTarget(st: State, act: Act, actor: nat, draw: nat, rules: Rules)
    requires actor < |st.seats|
    ensures var r := ActStep(st, act, actor, draw, rules);
      var me := st.seats[actor].id;
      var any := exists k | 0 <= k < |st.seats| :: Matches(Targets(act, me), st.seats[k]);
      && (Rests(act, rules, st.night) || !any ==> r.seats == st.seats)
      && (!Rests(act, rules, st.night) && any ==>
            exists t | 0 <= t < |st.seats| ::
              Matches(Targets(act, me), st.seats[t]) && r.seats == st.seats[t := Mark(act, me, st.seats[t])])
      && (act == KillAct && !Rests(act, rules, st.night) && !any ==> r.log == Log(st.log, rules, KillFailedLog(me)))
  {
    var me := st.seats[actor].id;
    var t := RandomAlive(st.seats, Targets(act, me), draw);
    if t.Some? {
      assert Matches(Targets(act, me), st.seats[t.value]);
    }
  }

  /** Later seats across one action. */
  lemma ActStepEvolves(st: State, act: Act, actor: nat, draw: nat, rules: Rules)
    requires actor < |st.seats|
    ensures Evolves(st.seats, ActStep(st, act, actor, draw, rules).seats, rules)
  {
    ActStepTarget(st, act, actor, draw, rules);
    var r := ActStep(st, act, actor, draw, rules);
    var me := st.seats[actor].id;
    if r.seats != st.seats {
      var t :| 0 <= t < |st.seats| && r.seats == st.seats[t := Mark(act, me, st.seats[t])];
      MarkEvolves(st.seats, t, act, me, rules);
    }
  }

  /** Marking one seat is a later state of the seats. */
  lemma MarkEvolves(seats: seq<Seat>, t: nat, act: Act, me: int, rules: Rules)
    requires t < |seats|
    ensures Evolves(seats, seats[t := Mark(act, me, seats[t])], rules)
  {
  }

  /** Later seats across a list of actors. */
  lemma {:induction false} ActFoldEvolves(st: State, act: Act, actors: seq<nat>, draws: nat -> nat, rules: Rules)
    requires forall k | 0 <= k < |actors| :: actors[k] < |st.seats|
    ensures Evolves(st.seats, ActFold(st, act, actors, draws, rules).seats, rules)
  {
    if actors != [] {
      var n := |actors| - 1;
      var mid := ActFold(st, act, actors[..n], draws, rules);
      ActFoldEvolves(st, act, actors[..n], draws, rules);
      ActStepEvolves(mid, act, actors[n], draws(n), rules);
    }
  }

  /** Poisoning and protecting kill nobody, and neither does a resting demon. */
  lemma {:induction false} ActFoldNoDeath(st: State, act: Act, actors: seq<nat>, draws: nat -> nat, rules: Rules)
    requires forall k | 0 <= k < |actors| :: actors[k] < |st.seats|
    requires act != KillAct || Rests(act, rules, st.night)
    ensures var r := ActFold(st, act, actors, draws, rules);
      forall i | 0 <= i < |st.seats| :: r.seats[i].isDead == st.seats[i].isDead
  {
    if actors != [] {
      var n := |actors| - 1;
      var mid := ActFold(st, act, actors[..n], draws, rules);
      ActFoldNoDeath(st, act, actors[..n], draws, rules);
      ActStepNoDeath(mid, act, actors[n], draws(n), rules);
    }
  }

  lemma ActStepNoDeath(st: State, act: Act, actor: nat, draw: nat, rules: Rules)
    requires actor < |st.seats|
    requires act != KillAct || Rests(act, rules, st.night)
    ensures var r := ActStep(st, act, actor, draw, rules);
      forall i | 0 <= i < |st.seats| :: r.seats[i].isDead == st.seats[i].isDead
  {
  }

  /**
   * A night: seats evolve, the night counter grows by exactly one, day and
   * winner stay; when the rules clear protection every seat ends it
   * unprotected.
   */
  lemma NightBodyEvolves(st: State, rules: Rules, d: NightDraws)
    ensures var r := NightBody(st, rules, d);
      && Evolves(st.seats, r.seats, rules)
      && r.night == st.night + 1 && r.day == st.day && r.winner == st.winner
      && (rules.clearProtection ==> forall i | 0 <= i < |r.seats| :: !r.seats[i].isProtected && r.seats[i].protectedBy.None?)
  {
    var s0 := st.(log := Log(st.log, rules, NightHeader(st.night)));
    var s3 := NightActions(s0, rules, d);
    NightActionsEvolve(s0, rules, d);
    if rules.clearProtection {
      assert Evolves(s3.seats, Unprotected(s3.seats), rules);
      EvolvesTrans(s0.seats, s3.seats, Unprotected(s3.seats), rules);
    }
  }

  lemma NightActionsEvolve(s0: State, rules: Rules, d: NightDraws)
    ensures Evolves(s0.seats, NightActions(s0, rules, d).seats, rules)
  {
    var s1 := ActFold(s0, PoisonAct, Where(s0.seats, AlivePoisoner), d.poison, rules);
    var s2 := ActFold(s1, ProtectAct, Where(s1.seats, AliveMonk), d.protect, rules);
    var s3 := ActFold(s2, KillAct, Where(s2.seats, AliveDemon), d.kill, rules);
    ActFoldEvolves(s0, PoisonAct, Where(s0.seats, AlivePoisoner), d.poison, rules);
    ActFoldEvolves(s1, ProtectAct, Where(s1.seats, AliveMonk), d.protect, rules);
    ActFoldEvolves(s2, KillAct, Where(s2.seats, AliveDemon), d.kill, rules);
    EvolvesTrans(s0.seats, s1.seats, s2.seats, rules);
    EvolvesTrans(s0.seats, s2.seats, s3.seats, rules);
  }

  /** The actions only append to the log. */
  lemma {:induction false} ActFoldLog(st: State, act: Act, actors: seq<nat>, draws: nat -> nat, rules: Rules)
    requires forall k | 0 <= k < |actors| :: actors[k] < |st.seats|
    ensures st.log <= ActFold(st, act, actors, draws, rules).log
    ensures !rules.logging ==> ActFold(st, act, actors, draws, rules).log == st.log
  {
    if actors != [] {
      var n := |actors| - 1;
      ActFoldLog(st, act, actors[..n], draws, rules);
    }
  }

  lemma NightActionsLog(s0: State, rules: Rules, d: NightDraws)
    ensures s0.log <= NightActions(s0, rules, d).log
    ensures !rules.logging ==> NightActions(s0, rules, d).log == s0.log
  {
    var s1 := ActFold(s0, PoisonAct, Where(s0.seats, AlivePoisoner), d.poison, rules);
    var s2 := ActFold(s1, ProtectAct, Where(s1.seats, AliveMonk), d.protect, rules);
    ActFoldLog(s0, PoisonAct, Where(s0.seats, AlivePoisoner), d.poison, rules);
    ActFoldLog(s1, ProtectAct, Where(s1.seats, AliveMonk), d.protect, rules);
    ActFoldLog(s2, KillAct, Where(s2.seats, AliveDemon), d.kill, rules);
  }

  lemma EvolvesTrans(a: seq<Seat>, b: seq<Seat>, c: seq<Seat>, rules: Rules)
    requires Evolves(a, b, rules) && Evolves(b, c, rules)
    ensures Evolves(a, c, rules)
  {
  }

  /** Under the first-night rule nobody dies on the first night. */
  lemma FirstNightNoDeath(st: State, rules: Rules, d: NightDraws)
    requires rules.suppressFirstNight && st.night <= 1
    ensures var r := NightBody(st, rules, d);
      |r.seats| == |st.seats| && forall i | 0 <= i < |st.seats| :: r.seats[i].isDead == st.seats[i].isDead
  {
    var s0 := st.(log := Log(st.log, rules, NightHeader(st.night)));
    var s1 := ActFold(s0, PoisonAct, Where(s0.seats, AlivePoisoner), d.poison, rules);
    var s2 := ActFold(s1, ProtectAct, Where(s1.seats, AliveMonk), d.protect, rules);
    ActFoldNoDeath(s0, PoisonAct, Where(s0.seats, AlivePoisoner), d.poison, rules);
    ActFoldNoDeath(s1, ProtectAct, Where(s1.seats, AliveMonk), d.protect, rules);
    ActFoldNoDeath(s2, KillAct, Where(s2.seats, AliveDemon), d.kill, rules);
  }

  // ---- The win check ----

  /**
   * Good wins when no living seat is a demon or successor, checked first;
   * otherwise evil wins when no living seat is good or at most two live;
   * otherwise the game goes on and nothing changes. An ending sets the
   * winner and, when logging, appends exactly one entry.
   */
  lemma WinCheckDecides(st: State, logging: bool, stage: Stage)
    ensures var pr := WinCheck(st, logging, stage);
      var r, ended := pr.0, pr.1;
      var noDemon := forall i | 0 <= i < |st.seats| :: !Matches(AliveDemon, st.seats[i]);
      var noGood := forall i | 0 <= i < |st.seats| :: !Matches(AliveGood, st.seats[i]);
      && (noDemon ==> ended && r.winner == Some(Good))
      && (!noDemon && (noGood || Living(st.seats) <= 2) ==> ended && r.winner == Some(Evil))
      && (!noDemon && !noGood && Living(st.seats) > 2 ==> !ended && r == st)
      && (ended ==> r.winner.Some? && r == st.(winner := r.winner,
            log := st.log + if logging then [GameOverLog(r.winner.value, stage)] else []))
  {
    var demons := Where(st.seats, AliveDemon);
    var goods := Where(st.seats, AliveGood);
    if demons != [] {
      assert Matches(AliveDemon, st.seats[demons[0]]);
    }
    if goods != [] {
      assert Matches(AliveGood, st.seats[goods[0]]);
    }
  }

  // ---- Days ----

  /**
   * A voting day: with at most one living seat nothing but the counters
   * and the log change; otherwise the seats change exactly when the yes
   * votes reach a strict majority of the living, and then only the nominee,
   * a living seat other than the nominator, dies.
   */
  lemma VoteDayOutcome(st: State, rules: Rules, d: DayDraws)
    ensures var r := VoteDayBody(st, rules, d);
      var alive := Where(st.seats, Alive);
      && r.day == st.day + 1 && r.night == st.night && r.winner == st.winner
      && (|alive| <= 1 ==> r.seats == st.seats)
      && (|alive| >= 2 ==>
            var nominator := alive[Nomination(alive, d).0];
            && (r.seats != st.seats <==> CountYes(d.ballot, |alive|) >= |alive| / 2 + 1)
            && (r.seats == st.seats ||
                exists t | 0 <= t < |st.seats| ::
                  !st.seats[t].isDead && t != nominator && r.seats == st.seats[t := st.seats[t].(isDead := true)]))
  {
    var alive := Where(st.seats, Alive);
    if |alive| >= 2 {
      var pn := Nomination(alive, d);
      var p := pn.0;
      var n := pn.1;
      WhereOrdered(st.seats, Alive);
      assert alive[p] != alive[n];
      var t := alive[n];
      assert !st.seats[t].isDead;
      assert st.seats[t := st.seats[t].(isDead := true)][t] != st.seats[t];
    }
  }

  /** A day without a vote: when any seat lives exactly one living seat dies; otherwise the seats are unchanged. */
  lemma RandomDayOutcome(st: State, rules: Rules, draw: nat)
    ensures var r := RandomDayBody(st, rules, draw);
      && r.day == st.day + 1 && r.night == st.night && r.winner == st.winner
      && ((exists k | 0 <= k < |st.seats| :: !st.seats[k].isDead) ==>
            exists t | 0 <= t < |st.seats| :: !st.seats[t].isDead && r.seats == st.seats[t := st.seats[t].(isDead := true)])
      && ((forall k | 0 <= k < |st.seats| :: st.seats[k].isDead) ==> r.seats == st.seats)
  {
    var t := RandomAlive(st.seats, Alive, draw);
    if exists k | 0 <= k < |st.seats| :: !st.seats[k].isDead {
      var k :| 0 <= k < |st.seats| && !st.seats[k].isDead;
      assert Matches(Alive, st.seats[k]);
    }
  }

  /** Later seats across a day, with the day counter grown by one. */
  lemma DayBodyEvolves(st: State, rules: Rules, d: DayDraws)
    ensures var r := DayBody(st, rules, d);
      Evolves(st.seats, r.seats, rules) && r.day == st.day + 1 && r.night == st.night && r.winner == st.winner
  {
    if rules.voting {
      VoteDayEvolves(st, rules, d);
    } else {
      RandomDayEvolves(st, rules, d.execute);
    }
  }

  lemma VoteDayEvolves(st: State, rules: Rules, d: DayDraws)
    ensures var r := VoteDayBody(st, rules, d);
      Evolves(st.seats, r.seats, rules) && r.day == st.day + 1 && r.night == st.night && r.winner == st.winner
  {
    var s0 := st.(log := Log(st.log, rules, DayHeader(st.day)));
    var alive := Where(s0.seats, Alive);
    if |alive| >= 2 {
      NominationEvolves(s0, alive, rules, d);
    }
  }

  /** The vote kills at most the nominee, so the seats evolve. */
  lemma NominationEvolves(s0: State, alive: seq<nat>, rules: Rules, d: DayDraws)
    requires |alive| >= 2 && forall k | 0 <= k < |alive| :: alive[k] < |s0.seats|
    ensures Evolves(s0.seats, NominationVote(s0, alive, rules, d).seats, rules)
  {
    var target := alive[Nomination(alive, d).1];
    if CountYes(d.ballot, |alive|) >= |alive| / 2 + 1 {
      MarkEvolves(s0.seats, target, KillAct, 0, rules);
    }
  }

  lemma RandomDayEvolves(st: State, rules: Rules, draw: nat)
    ensures var r := RandomDayBody(st, rules, draw);
      Evolves(st.seats, r.seats, rules) && r.day == st.day + 1 && r.night == st.night && r.winner == st.winner
  {
    var s0 := st.(log := Log(st.log, rules, DayHeader(st.day)));
    match RandomAlive(s0.seats, Alive, draw)
    case Some(t) => MarkEvolves(s0.seats, t, KillAct, 0, rules);
    case None =>
  }

  // ---- Whole games ----

  /** The rounds left to play. */
  function Remaining(round: nat, maxRounds: nat): nat
  {
    if round < maxRounds then maxRounds - round else 0
  }

  /** Over a game of any length the seats evolve. */
  lemma {:induction false} PlayEvolves(st: State, rules: Rules, draws: nat -> RoundDraws, round: nat, maxRounds: nat)
    ensures Evolves(st.seats, Play(st, rules, draws, round, maxRounds).0.seats, rules)
    decreases maxRounds - round
  {
    if round < maxRounds {
      var ns := NightSpec(st, rules, draws(round).night);
      NightStep(st, rules, draws(round).night);
      if !ns.1 {
        var ds := DaySpec(ns.0, rules, draws(round).day);
        DayStep(ns.0, rules, draws(round).day);
        EvolvesTrans(st.seats, ns.0.seats, ds.0.seats, rules);
        if !ds.1 {
          PlayEvolves(ds.0, rules, draws, round + 1, maxRounds);
          EvolvesTrans(st.seats, ds.0.seats, Play(ds.0, rules, draws, round + 1, maxRounds).0.seats, rules);
        }
      }
    }
  }

  /**
   * A game of at most `maxRounds - round` rounds: each round adds at most
   * one night, all of them when no win came, and from a state without a
   * winner the flag says whether one was declared.
   */
  lemma {:induction false} PlayNights(st: State, rules: Rules, draws: nat -> RoundDraws, round: nat, maxRounds: nat)
    ensures var pr := Play(st, rules, draws, round, maxRounds);
      var r, ended := pr.0, pr.1;
      && st.night <= r.night <= st.night + Remaining(round, maxRounds)
      && (ended ==> st.night < r.night)
      && (!ended ==> r.night == st.night + Remaining(round, maxRounds) && r.winner == st.winner)
      && (st.winner.None? ==> (ended <==> r.winner.Some?))
    decreases maxRounds - round
  {
    if round < maxRounds {
      var ns := NightSpec(st, rules, draws(round).night);
      NightStep(st, rules, draws(round).night);
      if !ns.1 {
        var ds := DaySpec(ns.0, rules, draws(round).day);
        DayStep(ns.0, rules, draws(round).day);
        assert ds.0.night == st.night + 1;
        if !ds.1 {
          assert ds.0.winner == st.winner;
          assert Remaining(round + 1, maxRounds) + 1 == Remaining(round, maxRounds);
          assert Play(st, rules, draws, round, maxRounds) == Play(ds.0, rules, draws, round + 1, maxRounds);
          PlayNights(ds.0, rules, draws, round + 1, maxRounds);
        }
      }
    }
  }

  /**
   * A whole game from valid seats and no winner: the seats stay valid and
   * evolve, the log only grows, the flag says exactly whether good or evil
   * won, and an undecided game played every one of its nights.
   */
  lemma PlayOutcome(st: State, rules: Rules, draws: nat -> RoundDraws, maxRounds: nat)
    requires ValidSeats(st.seats) && st.winner.None?
    ensures var pr := Play(st, rules, draws, 0, maxRounds);
      var r, ended := pr.0, pr.1;
      && ValidSeats(r.seats) && Evolves(st.seats, r.seats, rules) && st.log <= r.log
      && (ended <==> Decided(r.winner))
      && (!ended ==> r.winner.None? && r.night == st.night + maxRounds)
      && (ended ==> st.night < r.night)
      && st.night <= r.night <= st.night + maxRounds
  {
    PlayEvolves(st, rules, draws, 0, maxRounds);
    PlayNights(st, rules, draws, 0, maxRounds);
    PlayWinner(st, rules, draws, 0, maxRounds);
    PlayLog(st, rules, draws, 0, maxRounds);
    EvolvesKeepsValid(st.seats, Play(st, rules, draws, 0, maxRounds).0.seats, rules);
  }

  /** A game only appends to the log. */
  lemma {:induction false} PlayLog(st: State, rules: Rules, draws: nat -> RoundDraws, round: nat, maxRounds: nat)
    ensures st.log <= Play(st, rules, draws, round, maxRounds).0.log
    ensures !rules.logging ==> Play(st, rules, draws, round, maxRounds).0.log == st.log
    decreases maxRounds - round
  {
    if round < maxRounds {
      var n := NightSpec(st, rules, draws(round).night);
      NightStep(st, rules, draws(round).night);
      if !n.1 {
        var d := DaySpec(n.0, rules, draws(round).day);
        DayStep(n.0, rules, draws(round).day);
        if !d.1 {
          PlayLog(d.0, rules, draws, round + 1, maxRounds);
          PrefixTrans(st.log, n.0.log, d.0.log);
          PrefixTrans(st.log, d.0.log, Play(d.0, rules, draws, round + 1, maxRounds).0.log);
        } else {
          PrefixTrans(st.log, n.0.log, d.0.log);
        }
      }
    }
  }

  /** A game that ended was won by good or by evil. */
  lemma {:induction false} PlayWinner(st: State, rules: Rules, draws: nat -> RoundDraws, round: nat, maxRounds: nat)
    ensures var pr := Play(st, rules, draws, round, maxRounds);
      var r, ended := pr.0, pr.1;
      ended ==> Decided(r.winner)
    decreases maxRounds - round
  {
    if round < maxRounds {
      var n := NightSpec(st, rules, draws(round).night);
      NightStep(st, rules, draws(round).night);
      if !n.1 {
        var d := DaySpec(n.0, rules, draws(round).day);
        DayStep(n.0, rules, draws(round).day);
        if !d.1 {
          PlayWinner(d.0, rules, draws, round + 1, maxRounds);
        }
      }
    }
  }

  /** The verdict of the win check: good or evil. */
  predicate Decided(w: Option<Winner>)
  {
    w == Some(Good) || w == Some(Evil)
  }

  lemma PrefixTrans<T>(a: seq<T>, b: seq<T>, c: seq<T>)
    requires a <= b && b <= c
    ensures a <= c
  {
    assert b[..|a|] == a;
  }

  /** One night followed by its win check. */
  lemma NightStep(st: State, rules: Rules, d: NightDraws)
    ensures var pr := NightSpec(st, rules, d);
      var r, e := pr.0, pr.1;
      && Evolves(st.seats, r.seats, rules) && r.night == st.night + 1
      && st.log <= r.log && (!rules.logging ==> r.log == st.log)
      && (!e ==> r.winner == st.winner)
      && (e ==> Decided(r.winner))
      && (st.winner.None? ==> (e <==> r.winner.Some?))
  {
    NightBodyEvolves(st, rules, d);
    NightActionsLog(st.(log := Log(st.log, rules, NightHeader(st.night))), rules, d);
    WinCheckStep(NightBody(st, rules, d), rules.logging, AtNight);
  }

  /** One day followed by its win check. */
  lemma DayStep(st: State, rules: Rules, d: DayDraws)
    ensures var pr := DaySpec(st, rules, d);
      var r, e := pr.0, pr.1;
      && Evolves(st.seats, r.seats, rules) && r.night == st.night
      && st.log <= r.log && (!rules.logging ==> r.log == st.log)
      && (!e ==> r.winner == st.winner)
      && (e ==> Decided(r.winner))
      && (st.winner.None? ==> (e <==> r.winner.Some?))
  {
    DayBodyEvolves(st, rules, d);
    WinCheckStep(DayBody(st, rules, d), rules.logging, AtDay);
  }

  /** From a state without a winner, the night's flag says whether a winner was declared. */
  lemma NightFlag(st: State, rules: Rules, d: NightDraws)
    requires st.winner.None?
    ensures NightSpec(st, rules, d).1 <==> NightSpec(st, rules, d).0.winner.Some?
  {
    WinCheckStep(NightBody(st, rules, d), rules.logging, AtNight);
  }

  /** From a state without a winner, the day's flag says whether a winner was declared. */
  lemma DayFlag(st: State, rules: Rules, d: DayDraws)
    requires st.winner.None?
    ensures DaySpec(st, rules, d).1 <==> DaySpec(st, rules, d).0.winner.Some?
  {
    WinCheckStep(DayBody(st, rules, d), rules.logging, AtDay);
  }

  /** The win check changes only the winner and the log: it appends to the log, and a verdict is good or evil. */
  lemma WinCheckStep(b: State, logging: bool, stage: Stage)
    ensures var pr := WinCheck(b, logging, stage);
      var r, e := pr.0, pr.1;
      && r.seats == b.seats && r.night == b.night && r.day == b.day
      && b.log <= r.log && (!logging ==> r.log == b.log)
      && (!e ==> r.winner == b.winner)
      && (e ==> Decided(r.winner))
  {
  }

  /** A game that starts with no demon and no successor seated ends at the first night, won by good. */
  lemma NoDemonGoodWinsAtOnce(st: State, rules: Rules, draws: nat -> RoundDraws, maxRounds: nat)
    requires maxRounds > 0
    requires forall i | 0 <= i < |st.seats| :: !HasRoleType(st.seats[i], Demon) && !st.seats[i].isDemonSuccessor
    ensures var pr := Play(st, rules, draws, 0, maxRounds);
      var r, ended := pr.0, pr.1;
      ended && r.winner == Some(Good) && r.night == st.night + 1
  {
    var nd := draws(0).night;
    var b := NightBody(st, rules, nd);
    NightBodyEvolves(st, rules, nd);
    EvolvesNoDemon(st.seats, b.seats, rules);
  }
}
