// The rule helpers of the Trouble Brewing scenario suite: alignment, the
// suite's own kill rule, protection reset, and the information abilities of
// the fortune teller, empath and investigator, together with the succession
// and special-victory arithmetic that the suite states inline.

module Scenarios {
  import opened Wrappers
  import opened Data
  import opened GameLogic
  import SimCommon

  // ---- Seats of a scenario ----

  /** The suite's role lookup: the catalog entry keyed `id`, or the error it throws for an unknown key. */
  function GetRole(id: string): (r: Result<Role, string>)
    ensures r.Ok? ==> r.value in Roles && Key(r.value.id) == id
    ensures r.Err? <==> forall rid: RoleId :: Key(rid) != id
    ensures r.Err? ==> r.error == "未找到角色: " + id
  {
    FindRoleUnknown(id);
    FindInSpec(Roles, id);
    match FindRole(id)
    case None => Err("未找到角色: " + id)
    case Some(x) => Ok(x)
  }

  /**
   * The suite's seat builder: seat `idx` holding the role keyed `roleId`,
   * drunk exactly when that role is the drunk, every other flag cleared;
   * an unknown key is the lookup's error.
   */
  function CreateSeat(idx: int, roleId: string): (r: Result<Seat, string>)
    ensures r.Err? <==> forall rid: RoleId :: Key(rid) != roleId
    ensures r.Ok? ==>
      && r.value.role.Some? && r.value.role.value in Roles && Key(r.value.role.value.id) == roleId
      && (r.value.isDrunk <==> r.value.role.value.id == Drunk)
      && r.value == BlankSeat(idx).(role := r.value.role, isDrunk := r.value.isDrunk)
  {
    match GetRole(roleId)
    case Err(e) => Err(e)
    case Ok(role) =>
      KeyOfDrunk(role.id);
      Ok(BlankSeat(idx).(role := Some(role), isDrunk := roleId == "drunk"))
  }

  /** Every catalog key builds a seat holding exactly that key's role. */
  lemma CreateSeatOfKey(idx: int, rid: RoleId)
    ensures CreateSeat(idx, Key(rid)) == Ok(BlankSeat(idx).(role := Some(RoleOf(rid)), isDrunk := rid == Drunk))
  {
    FindRoleOfKey(rid);
    KeyOfDrunk(rid);
  }

  // ---- Alignment ----

  /** A seat is evil when its role is a minion or demon, or it has inherited the demon. */
  predicate IsEvil(s: Seat)
    requires s.role.Some?
    ensures IsEvil(s) <==> !(s.role.value.roleType in {Townsfolk, Outsider}) || s.isDemonSuccessor
  {
    s.role.value.roleType == Minion || s.role.value.roleType == Demon || s.isDemonSuccessor
  }

  /**
   * The suite's alignment is the simulators' alignment without conversion:
   * the two agree on every seat that was not converted to evil, and a
   * conversion makes a good role evil only in the simulators.
   */
  lemma SuiteEvilIgnoresConversion(s: Seat)
    requires s.role.Some?
    ensures IsEvil(s) <==> SimCommon.SimEvil(s.(isEvilConverted := false))
    ensures !s.isEvilConverted ==> (IsEvil(s) <==> SimCommon.SimEvil(s))
    ensures s.isEvilConverted && !IsEvil(s) ==> SimCommon.SimEvil(s)
  {
  }

  // ---- Killing ----

  /** The options of the suite's kill helper; an absent option is false. */
  datatype KillFlags = KillFlags(force: bool, ignoreProtection: bool)

  /** A soldier resists only while it is neither poisoned nor drunk. */
  predicate SoldierImmune(s: Seat)
    requires s.role.Some?
  {
    s.role.value.id == Soldier && !s.isPoisoned && !s.isDrunk
  }

  /** Whether the suite's kill helper kills the seat. */
  predicate KillSucceeds(s: Seat, opts: KillFlags)
    requires s.role.Some?
  {
    !(SoldierImmune(s) && !opts.force) && !(s.isProtected && !opts.ignoreProtection)
  }

  /** Kills seat `i` in place unless the soldier or protection rule saves it; reports whether it died. */
  method Kill(seats: array<Seat>, i: nat, opts: KillFlags) returns (killed: bool)
    requires i < seats.Length && seats[i].role.Some?
    modifies seats
    ensures killed == KillSucceeds(old(seats[i]), opts)
    ensures seats[..] == old(seats[..])[i := if killed then old(seats[i]).(isDead := true) else old(seats[i])]
  {
    var seat := seats[i];
    var soldierImmune := seat.role.value.id == Soldier && !seat.isPoisoned && !seat.isDrunk;
    if soldierImmune && !opts.force {
      return false;
    }
    if seat.isProtected && !opts.ignoreProtection {
      return false;
    }
    seats[i] := seat.(isDead := true);
    return true;
  }

  /** Clears the protection of every seat in place. */
  method ResetProtection(seats: array<Seat>)
    modifies seats
    ensures forall k | 0 <= k < seats.Length :: seats[k] == Unprotect(old(seats[k]))
  {
    var k := 0;
    while k < seats.Length
      invariant 0 <= k <= seats.Length
      invariant forall j | 0 <= j < k :: seats[j] == Unprotect(old(seats[j]))
      invariant forall j | k <= j < seats.Length :: seats[j] == old(seats[j])
    {
      seats[k] := Unprotect(seats[k]);
      k := k + 1;
    }
  }

  /** An unimpaired soldier survives every kill that is not forced, protected or not. */
  lemma SoldierSurvivesUnlessForced(s: Seat, opts: KillFlags)
    requires s.role.Some? && s.role.value.id == Soldier && !s.isPoisoned && !s.isDrunk
    ensures KillSucceeds(s, opts) ==> opts.force
  {
  }

  /** A protected seat survives every kill that does not ignore protection. */
  lemma ProtectionIsUnconditional(s: Seat, opts: KillFlags)
    requires s.role.Some? && s.isProtected
    ensures KillSucceeds(s, opts) ==> opts.ignoreProtection
  {
  }

  /**
   * After protection is reset, a kill succeeds exactly when the soldier rule
   * does not apply; in particular a drunk dressed as a soldier and a poisoned
   * soldier always die.
   */
  lemma UnprotectedKillRule(s: Seat, opts: KillFlags)
    requires s.role.Some?
    ensures KillSucceeds(Unprotect(s), opts) <==> !(SoldierImmune(s) && !opts.force)
    ensures s.role.value.id != Soldier || s.isPoisoned || s.isDrunk ==> KillSucceeds(Unprotect(s), opts)
  {
  }

  /**
   * The suite's rule and the seat library's rule disagree on a poisoned
   * soldier at night: the library keeps it alive, the suite kills it.
   */
  lemma PoisonedSoldierRulesDisagree(seats: seq<Seat>, t: nat, opts: KillFlags)
    requires t < |seats| && FindSeat(seats, seats[t].id) == Some(t)
    requires seats[t].role.Some? && seats[t].role.value.id == Soldier && seats[t].isPoisoned
    requires !seats[t].isProtected
    ensures KillPlayer(seats, seats[t].id, KillOptions(Some(true), None)) == Ok(seats)
    ensures KillSucceeds(seats[t], opts)
  {
  }

  /**
   * The two rules also disagree on a seat protected by an impaired monk: the
   * library voids that protection and kills, the suite keeps the seat alive.
   */
  lemma ImpairedProtectorRulesDisagree(seats: seq<Seat>, t: nat, q: nat, opts: KillFlags)
    requires UniqueIds(seats) && t < |seats| && q < |seats| && !seats[t].isDead
    requires seats[t].role.Some? && seats[t].role.value.id != Soldier
    requires seats[t].isProtected && seats[t].protectedBy == Some(seats[q].id)
    requires seats[q].isPoisoned && !opts.ignoreProtection
    ensures KillPlayer(seats, seats[t].id, KillOptions(Some(true), None)).Ok?
    ensures KillPlayer(seats, seats[t].id, KillOptions(Some(true), None)).value[t].isDead
    ensures !KillSucceeds(seats[t], opts)
  {
    assert FindSeat(seats, seats[q].id) == Some(q);
    VoidProtectionKills(seats, t, KillOptions(Some(true), None));
  }

  // ---- Fortune teller ----

  /** A fortune-teller target reads as a demon when it is one, has inherited one, or is the red herring. */
  predicate Pings(t: Seat)
    requires t.role.Some?
  {
    t.role.value.roleType == Demon || t.isDemonSuccessor || t.isFortuneTellerRedHerring
  }

  /** Whether some target pings. */
  function AnyPings(targets: seq<Seat>): (r: bool)
    requires forall k | 0 <= k < |targets| :: targets[k].role.Some?
    ensures r <==> exists k | 0 <= k < |targets| :: Pings(targets[k])
  {
    if targets == [] then false
    else Pings(targets[0]) || AnyPings(targets[1..])
  }

  /** The fortune teller's answer: a ping among the targets, negated when the fortune teller is poisoned. */
  function FortuneTellerCheck(ft: Seat, targets: seq<Seat>): (r: bool)
    requires forall k | 0 <= k < |targets| :: targets[k].role.Some?
    ensures !ft.isPoisoned ==> (r <==> exists k | 0 <= k < |targets| :: Pings(targets[k]))
    ensures ft.isPoisoned ==> (r <==> forall k | 0 <= k < |targets| :: !Pings(targets[k]))
  {
    var hit := AnyPings(targets);
    if ft.isPoisoned then !hit else hit
  }

  /** Poison always flips the answer: the same targets give opposite readings. */
  lemma PoisonFlipsFortuneTeller(ft: Seat, targets: seq<Seat>)
    requires forall k | 0 <= k < |targets| :: targets[k].role.Some?
    ensures FortuneTellerCheck(ft.(isPoisoned := true), targets) != FortuneTellerCheck(ft.(isPoisoned := false), targets)
  {
  }

  // ---- Empath ----

  /** The ring neighbours of seat `i` in a table of `len` seats. */
  function LeftOf(i: nat, len: nat): (r: nat)
    requires i < len
    ensures r < len && (r + 1) % len == i
  {
    (i - 1 + len) % len
  }

  function RightOf(i: nat, len: nat): (r: nat)
    requires i < len
    ensures r < len && (i == len - 1 ==> r == 0) && (i < len - 1 ==> r == i + 1)
  {
    (i + 1) % len
  }

  /** Both neighbours of seat `i` have a role, as the alignment test needs. */
  predicate NeighboursSeated(seats: seq<Seat>, i: nat)
    requires i < |seats|
  {
    seats[LeftOf(i, |seats|)].role.Some? && seats[RightOf(i, |seats|)].role.Some?
  }

  /** How many of the two neighbours are evil (a neighbour met twice counts twice). */
  function EvilNeighbours(seats: seq<Seat>, i: nat): (r: nat)
    requires i < |seats| && NeighboursSeated(seats, i)
    ensures r <= 2
  {
    (if IsEvil(seats[LeftOf(i, |seats|)]) then 1 else 0)
    + (if IsEvil(seats[RightOf(i, |seats|)]) then 1 else 0)
  }

  /** The empath's number; a poisoned empath is given a number that is never the true count. */
  function EmpathInfo(seats: seq<Seat>, i: nat): (r: nat)
    requires i < |seats| && NeighboursSeated(seats, i)
    ensures r <= 2
    ensures !seats[i].isPoisoned ==> r == EvilNeighbours(seats, i)
    ensures seats[i].isPoisoned ==> r != EvilNeighbours(seats, i) && r <= 1
  {
    var count := EvilNeighbours(seats, i);
    if seats[i].isPoisoned then (if count == 1 then 0 else 1) else count
  }

  /** Alignment as the empath sees it when the seats in `goodMask` register as good. */
  predicate MaskedEvil(s: Seat, goodMask: set<int>)
    requires s.role.Some?
  {
    s.id !in goodMask && IsEvil(s)
  }

  function MaskedEvilNeighbours(seats: seq<Seat>, i: nat, goodMask: set<int>): (r: nat)
    requires i < |seats| && NeighboursSeated(seats, i)
    ensures r <= EvilNeighbours(seats, i)
  {
    (if MaskedEvil(seats[LeftOf(i, |seats|)], goodMask) then 1 else 0)
    + (if MaskedEvil(seats[RightOf(i, |seats|)], goodMask) then 1 else 0)
  }

  /** The empath's number with a spy mask; poisoned, it is never the masked count. */
  function EmpathInfoWithSpyMask(seats: seq<Seat>, i: nat, goodMask: set<int>): (r: nat)
    requires i < |seats| && NeighboursSeated(seats, i)
    ensures r <= 2
    ensures !seats[i].isPoisoned ==> r == MaskedEvilNeighbours(seats, i, goodMask)
    ensures seats[i].isPoisoned ==> r != MaskedEvilNeighbours(seats, i, goodMask) && r <= 1
  {
    var count := MaskedEvilNeighbours(seats, i, goodMask);
    if seats[i].isPoisoned then (if count == 0 then 1 else 0) else count
  }

  /** An empty mask changes nothing: the masked count is the plain count. */
  lemma EmptyMaskIsPlainCount(seats: seq<Seat>, i: nat)
    requires i < |seats| && NeighboursSeated(seats, i)
    ensures MaskedEvilNeighbours(seats, i, {}) == EvilNeighbours(seats, i)
    ensures !seats[i].isPoisoned ==> EmpathInfoWithSpyMask(seats, i, {}) == EmpathInfo(seats, i)
  {
  }

  /** Masking both neighbours makes an unpoisoned empath read zero, whatever they are. */
  lemma MaskedNeighboursReadGood(seats: seq<Seat>, i: nat, goodMask: set<int>)
    requires i < |seats| && NeighboursSeated(seats, i) && !seats[i].isPoisoned
    requires seats[LeftOf(i, |seats|)].id in goodMask && seats[RightOf(i, |seats|)].id in goodMask
    ensures EmpathInfoWithSpyMask(seats, i, goodMask) == 0
  {
  }

  /**
   * The two poisoned answers differ: with one evil neighbour, and a mask that
   * hides it, the plain helper answers 0 while the masked helper answers 1.
   */
  lemma PoisonedEmpathHelpersDisagree(seats: seq<Seat>, i: nat, goodMask: set<int>)
    requires i < |seats| && NeighboursSeated(seats, i) && seats[i].isPoisoned
    requires EvilNeighbours(seats, i) == 1 && MaskedEvilNeighbours(seats, i, goodMask) == 0
    ensures EmpathInfo(seats, i) == 0 && EmpathInfoWithSpyMask(seats, i, goodMask) == 1
  {
  }

  // ---- Investigator ----

  /** A candidate registers as a minion when it is in the forced set, or else when its role is a minion. */
  predicate RegistersAsMinion(s: Seat, forced: set<int>)
    requires s.id in forced || s.role.Some?
  {
    if s.id in forced then true else s.role.value.roleType == Minion
  }

  /** Those of the two candidates that register as minions, in the order given. */
  function InvestigatorPing(a: Seat, b: Seat, forced: set<int>): (r: seq<Seat>)
    requires a.id in forced || a.role.Some?
    requires b.id in forced || b.role.Some?
    ensures |r| <= 2
    ensures forall k | 0 <= k < |r| :: (r[k] == a && RegistersAsMinion(a, forced)) || (r[k] == b && RegistersAsMinion(b, forced))
    ensures RegistersAsMinion(a, forced) <==> |r| > 0 && r[0] == a
    ensures RegistersAsMinion(b, forced) <==> |r| > 0 && r[|r| - 1] == b && (|r| == 2 || !RegistersAsMinion(a, forced) || a == b)
    ensures r == [] <==> !RegistersAsMinion(a, forced) && !RegistersAsMinion(b, forced)
    ensures |r| == (if RegistersAsMinion(a, forced) then 1 else 0) + (if RegistersAsMinion(b, forced) then 1 else 0)
  {
    var isMinionA := RegistersAsMinion(a, forced);
    var isMinionB := RegistersAsMinion(b, forced);
    if isMinionA && isMinionB then [a, b]
    else if isMinionA then [a]
    else if isMinionB then [b]
    else []
  }

  /** A candidate in the forced set is always reported, whatever its true role. */
  lemma ForcedCandidateReported(a: Seat, b: Seat, forced: set<int>)
    requires a.id in forced
    requires b.id in forced || b.role.Some?
    ensures a in InvestigatorPing(a, b, forced)
    ensures |InvestigatorPing(a, b, forced)| > 0
  {
  }

  // ---- Succession and special victories ----

  datatype Team = Good | Evil

  /** A living seat that is a demon or has inherited the demon. */
  predicate AliveDemon(s: Seat)
  {
    !s.isDead && s.role.Some? && (s.role.value.roleType == Demon || s.isDemonSuccessor)
  }

  function AliveDemonCount(seats: seq<Seat>): (r: nat)
    ensures r <= |seats|
  {
    if seats == [] then 0
    else (if AliveDemon(seats[0]) then 1 else 0) + AliveDemonCount(seats[1..])
  }

  /** Replacing one seat changes the alive-demon count by that seat's contribution only. */
  lemma {:induction false} AliveDemonCountUpdate(seats: seq<Seat>, i: nat, x: Seat)
    requires i < |seats|
    ensures AliveDemonCount(seats[i := x])
         == AliveDemonCount(seats) - (if AliveDemon(seats[i]) then 1 else 0) + (if AliveDemon(x) then 1 else 0)
  {
    if i > 0 {
      assert seats[i := x][1..] == seats[1..][i - 1 := x];
      AliveDemonCountUpdate(seats[1..], i - 1, x);
    }
  }

  /** An executed saint hands evil the game. */
  function SaintExecution(saint: Seat): (r: Option<Team>)
    ensures r == Some(Evil) <==> saint.isDead && saint.role.Some? && saint.role.value.id == Saint
    ensures r != Some(Good)
  {
    if saint.isDead && saint.role.Some? && saint.role.value.id == Saint then Some(Evil) else None
  }

  /** Good wins when exactly three seats live and nobody was executed; the suite does not look for the mayor. */
  function MayorSurvival(seats: seq<Seat>, noExecution: bool): (r: Option<Team>)
    ensures r.Some? ==> r.value == Good && noExecution
    ensures r == Some(Good) <==> AliveCount(seats) == 3 && noExecution
    ensures r != Some(Evil)
  {
    if AliveCount(seats) == 3 && noExecution then Some(Good) else None
  }

  /** The mayor win is decided by the count alone: any three-alive table without an execution gives good. */
  lemma MayorWinIgnoresRoles(seats: seq<Seat>)
    requires AliveCount(seats) == 3
    ensures MayorSurvival(seats, true) == Some(Good)
    ensures forall k | 0 <= k < |seats| :: MayorSurvival(seats[k := seats[k].(role := None)], true) == Some(Good)
  {
    forall k | 0 <= k < |seats|
      ensures MayorSurvival(seats[k := seats[k].(role := None)], true) == Some(Good)
    {
      AliveCountIgnoresRole(seats, k, seats[k].(role := None));
    }
  }

  lemma {:induction false} AliveCountIgnoresRole(seats: seq<Seat>, k: nat, x: Seat)
    requires k < |seats| && x.isDead == seats[k].isDead
    ensures AliveCount(seats[k := x]) == AliveCount(seats)
  {
    if k > 0 {
      assert seats[k := x][1..] == seats[1..][k - 1 := x];
      AliveCountIgnoresRole(seats[1..], k - 1, x);
    }
  }

  /** The scarlet woman becomes the imp when at least five seats are alive. */
  function ScarletWomanSuccession(seats: seq<Seat>, sw: nat): (r: seq<Seat>)
    requires sw < |seats|
    ensures |r| == |seats|
  {
    if AliveCount(seats) >= 5 then seats[sw := seats[sw].(role := Some(RoleOf(Imp)), isDemonSuccessor := true)]
    else seats
  }

  /**
   * After the demon's execution, a living scarlet woman with at least five
   * seats alive keeps exactly one living demon in play, so the game goes on.
   */
  lemma SuccessionKeepsOneDemon(seats: seq<Seat>, sw: nat)
    requires sw < |seats| && !seats[sw].isDead
    requires AliveDemonCount(seats) == 0
    requires AliveCount(seats) >= 5
    ensures AliveDemonCount(ScarletWomanSuccession(seats, sw)) == 1
    ensures ScarletWomanSuccession(seats, sw)[sw].role == Some(RoleOf(Imp))
  {
    var x := seats[sw].(role := Some(RoleOf(Imp)), isDemonSuccessor := true);
    assert ScarletWomanSuccession(seats, sw) == seats[sw := x];
    NoAliveDemonAt(seats, sw);
    AliveDemonCountUpdate(seats, sw, x);
  }

  lemma {:induction false} NoAliveDemonAt(seats: seq<Seat>, k: nat)
    requires k < |seats| && AliveDemonCount(seats) == 0
    ensures !AliveDemon(seats[k])
  {
    if k > 0 {
      NoAliveDemonAt(seats[1..], k - 1);
    }
  }

  /** The imp dies by its own hand and the chosen minion becomes the imp. */
  function ImpStarPass(seats: seq<Seat>, imp: nat, minion: nat): (r: seq<Seat>)
    requires imp < |seats| && minion < |seats| && imp != minion
    ensures |r| == |seats| && r[imp].isDead
    ensures r[minion].role == Some(RoleOf(Imp)) && r[minion].isDemonSuccessor
  {
    var dead := seats[imp := seats[imp].(isDead := true)];
    dead[minion := dead[minion].(role := Some(RoleOf(Imp)), isDemonSuccessor := true)]
  }

  /** Passing the demon to a living minion keeps the number of living demons. */
  lemma StarPassKeepsDemonCount(seats: seq<Seat>, imp: nat, minion: nat)
    requires imp < |seats| && minion < |seats| && imp != minion
    requires AliveDemon(seats[imp]) && !seats[minion].isDead && !AliveDemon(seats[minion])
    ensures AliveDemonCount(ImpStarPass(seats, imp, minion)) == AliveDemonCount(seats)
  {
    var dead := seats[imp := seats[imp].(isDead := true)];
    AliveDemonCountUpdate(seats, imp, seats[imp].(isDead := true));
    AliveDemonCountUpdate(dead, minion, dead[minion].(role := Some(RoleOf(Imp)), isDemonSuccessor := true));
  }
}
