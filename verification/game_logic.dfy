/** The seat library of the helper (app/gameLogic.ts): seat creation, role
    binding, the protection-aware kill, the ability check and the counters.
    Every operation returns a new seat list; none changes its argument. */
module GameLogic {
  import opened Wrappers
  import opened Data

  // ---- Seat creation ----

  /** `initializeSeats`: a counting loop that appends one blank seat per player.
      A count of zero or less gives no seats. */
  method InitializeSeats(playerCount: int) returns (seats: seq<Seat>)
    ensures |seats| == if playerCount > 0 then playerCount else 0
    ensures forall i | 0 <= i < |seats| :: seats[i] == BlankSeat(i)
    ensures IdsAreIndices(seats)
    ensures forall i | 0 <= i < |seats| ::
      seats[i].role.None? && !seats[i].isDead && !seats[i].isDrunk
      && !seats[i].isPoisoned && !seats[i].isProtected && seats[i].protectedBy.None?
  {
    seats := [];
    var i := 0;
    while i < playerCount
      invariant 0 <= i
      invariant playerCount > 0 ==> i <= playerCount
      invariant playerCount <= 0 ==> i == 0
      invariant |seats| == i
      invariant forall k | 0 <= k < i :: seats[k] == BlankSeat(k)
    {
      seats := seats + [BlankSeat(i)];
      i := i + 1;
    }
  }

  /** Seat `i` has id `i`: the shape every seat list built here has. */
  predicate IdsAreIndices(seats: seq<Seat>)
  {
    forall i | 0 <= i < |seats| :: seats[i].id == i
  }

  // ---- Role assignment ----

  datatype AssignError =
    | CountMismatch(seatCount: nat, roleCount: nat)
    | UnknownRole(roleId: string)

  /** The position of the first identifier, at or after `from`, that the catalog does not know. */
  function FirstUnknown(roleIds: seq<string>, from: nat): (r: Option<nat>)
    requires from <= |roleIds|
    ensures r.Some? ==>
      && from <= r.value < |roleIds| && FindRole(roleIds[r.value]).None?
      && forall k | from <= k < r.value :: FindRole(roleIds[k]).Some?
    ensures r.None? ==> forall k | from <= k < |roleIds| :: FindRole(roleIds[k]).Some?
    decreases |roleIds| - from
  {
    if from == |roleIds| then None
    else if FindRole(roleIds[from]).None? then Some(from)
    else FirstUnknown(roleIds, from + 1)
  }

  /** A seat with `role` bound; the drunk starts drunk, every other role sober. */
  function Bind(seat: Seat, role: Role): Seat
  {
    seat.(role := Some(role), isDrunk := role.id == Drunk)
  }

  /** `assignRoles`: binds seat `i` to the catalog role keyed `roleIds[i]`.
      A length mismatch is reported first; otherwise the first unknown key in
      list order is reported. */
  function AssignRoles(seats: seq<Seat>, roleIds: seq<string>): (r: Result<seq<Seat>, AssignError>)
    ensures |seats| != |roleIds| ==> r == Err(CountMismatch(|seats|, |roleIds|))
    ensures r.Err? && r.error.CountMismatch? <==> |seats| != |roleIds|
    ensures r.Ok? <==> |seats| == |roleIds| && forall k | 0 <= k < |roleIds| :: FindRole(roleIds[k]).Some?
    ensures r.Err? && r.error.UnknownRole? ==>
      exists i | 0 <= i < |roleIds| ::
        && roleIds[i] == r.error.roleId && FindRole(roleIds[i]).None?
        && forall k | 0 <= k < i :: FindRole(roleIds[k]).Some?
    ensures r.Ok? ==> |r.value| == |seats| && AllPlayersHaveRoles(r.value)
    ensures r.Ok? ==> forall i | 0 <= i < |seats| ::
      && r.value[i].role.Some? && r.value[i].role.value in Roles
      && Key(r.value[i].role.value.id) == roleIds[i]
      && (r.value[i].isDrunk <==> r.value[i].role.value.id == Drunk)
      && r.value[i] == seats[i].(role := r.value[i].role, isDrunk := r.value[i].isDrunk)
  {
    if |seats| != |roleIds| then Err(CountMismatch(|seats|, |roleIds|))
    else match FirstUnknown(roleIds, 0)
      case Some(k) => Err(UnknownRole(roleIds[k]))
      case None =>
        KnownKeys(roleIds);
        Ok(seq(|seats|, i requires 0 <= i < |seats| => Bind(seats[i], FindRole(roleIds[i]).value)))
  }

  /** Keys that the catalog knows find catalog entries carrying those keys. */
  lemma KnownKeys(roleIds: seq<string>)
    requires forall k | 0 <= k < |roleIds| :: FindRole(roleIds[k]).Some?
    ensures forall k | 0 <= k < |roleIds| ::
      FindRole(roleIds[k]).value in Roles && Key(FindRole(roleIds[k]).value.id) == roleIds[k]
  {
    forall k | 0 <= k < |roleIds|
      ensures FindRole(roleIds[k]).value in Roles && Key(FindRole(roleIds[k]).value.id) == roleIds[k]
    {
      FindInSpec(Roles, roleIds[k]);
    }
  }

  /** `allPlayersHaveRoles`: every seat holds a role, so every seat could use its ability were it alive. */
  predicate AllPlayersHaveRoles(seats: seq<Seat>)
    ensures AllPlayersHaveRoles(seats) <==> forall i | 0 <= i < |seats| :: CanUseAbility(seats[i].(isDead := false))
  {
    forall i | 0 <= i < |seats| :: seats[i].role.Some?
  }

  // ---- Killing ----

  /** The options of `killPlayer`; `None` is an option left out. */
  datatype KillOptions = KillOptions(isNightPhase: Option<bool>, checkProtection: Option<bool>)

  datatype KillError = NoSuchPlayer(targetId: int)

  /** The position of the first seat whose id is `id`. */
  function FindSeat(seats: seq<Seat>, id: int): (r: Option<nat>)
    ensures r.Some? ==>
      && r.value < |seats| && seats[r.value].id == id
      && forall k | 0 <= k < r.value :: seats[k].id != id
    ensures r.None? ==> forall k | 0 <= k < |seats| :: seats[k].id != id
  {
    if seats == [] then None
    else if seats[0].id == id then Some(0)
    else match FindSeat(seats[1..], id)
      case None => None
      case Some(k) => Some(k + 1)
  }

  /** A protector whose own ability is unreliable: poisoned, drunk, or the drunk role. */
  predicate Impaired(s: Seat)
  {
    s.isPoisoned || s.isDrunk || HasRoleId(s, Drunk)
  }

  /** Protection recorded as given by seat `protectorId` holds: that seat exists and is not impaired.
      Whether the protector is alive is not looked at. */
  predicate ProtectionHolds(seats: seq<Seat>, protectorId: int)
  {
    match FindSeat(seats, protectorId)
    case None => false
    case Some(p) => !Impaired(seats[p])
  }

  /** Every seat carrying `id` marked dead, the others as they were. */
  function MarkDead(seats: seq<Seat>, id: int): (r: seq<Seat>)
    ensures |r| == |seats|
    ensures forall i | 0 <= i < |seats| ::
      r[i] == if seats[i].id == id then seats[i].(isDead := true) else seats[i]
  {
    seq(|seats|, i requires 0 <= i < |seats| =>
      if seats[i].id == id then seats[i].(isDead := true) else seats[i])
  }

  /** `killPlayer`. The target is the first seat with `targetId`; the checks run
      in the source's order: already dead, then protection (unless
      `checkProtection` is false), then the soldier's night immunity (which
      ignores the soldier's own poisoning). Only when all pass are the seats
      with `targetId` marked dead. */
  function KillPlayer(seats: seq<Seat>, targetId: int, options: KillOptions): (r: Result<seq<Seat>, KillError>)
    ensures r.Err? <==> forall k | 0 <= k < |seats| :: seats[k].id != targetId
    ensures r.Ok? ==> |r.value| == |seats|
    ensures r.Ok? ==> forall i | 0 <= i < |seats| ::
      r.value[i] == seats[i] || (seats[i].id == targetId && r.value[i] == seats[i].(isDead := true))
  {
    match FindSeat(seats, targetId)
    case None => Err(NoSuchPlayer(targetId))
    case Some(t) =>
      var target := seats[t];
      var checkProtection := options.checkProtection != Some(false);
      var isNightPhase := options.isNightPhase == Some(true);
      if target.isDead then Ok(seats)
      else if checkProtection && target.isProtected && target.protectedBy.Some?
        && ProtectionHolds(seats, target.protectedBy.value) then Ok(seats)
      else if isNightPhase && HasRoleId(target, Soldier) then Ok(seats)
      else Ok(MarkDead(seats, targetId))
  }

  // ---- Ability and counters ----

  /** `canUseAbility`: a seated role that is alive, or dead but keeping its ability. */
  function CanUseAbility(seat: Seat): (r: bool)
    ensures seat.role.None? ==> !r
    ensures !seat.isDead && seat.role.Some? ==> r
    ensures seat.isDead && seat.role.Some? ==> (r <==> seat.hasAbilityEvenDead || seat.isFirstDeathForZombuul)
  {
    if seat.isDead && !seat.hasAbilityEvenDead && !seat.isFirstDeathForZombuul then false
    else if seat.role.None? then false
    else true
  }

  /** `getAlivePlayerCount`: the number of living seats. */
  function AliveCount(seats: seq<Seat>): (n: nat)
    ensures n <= |seats|
  {
    if seats == [] then 0 else (if seats[0].isDead then 0 else 1) + AliveCount(seats[1..])
  }

  /** `getDeadPlayerCount`: the number of dead seats. */
  function DeadCount(seats: seq<Seat>): (n: nat)
    ensures n <= |seats|
  {
    if seats == [] then 0 else (if seats[0].isDead then 1 else 0) + DeadCount(seats[1..])
  }

  // ---- Properties ----

  /** No two seats share an id. */
  predicate UniqueIds(seats: seq<Seat>)
  {
    forall i, j | 0 <= i < j < |seats| :: seats[i].id != seats[j].id
  }

  /** The number of living seats carrying `id`. */
  function AliveWithId(seats: seq<Seat>, id: int): nat
  {
    if seats == [] then 0
    else (if seats[0].id == id && !seats[0].isDead then 1 else 0) + AliveWithId(seats[1..], id)
  }

  /** Every seat is either alive or dead: the two counters add up to the seat count. */
  lemma {:induction false} AliveDeadPartition(seats: seq<Seat>)
    ensures AliveCount(seats) + DeadCount(seats) == |seats|
  {
    if seats != [] {
      AliveDeadPartition(seats[1..]);
    }
  }

  /** Marking the seats with `id` dead removes exactly the living ones among them from the alive count. */
  lemma {:induction false} MarkDeadAliveCount(seats: seq<Seat>, id: int)
    ensures AliveCount(MarkDead(seats, id)) + AliveWithId(seats, id) == AliveCount(seats)
  {
    if seats != [] {
      assert MarkDead(seats, id)[1..] == MarkDead(seats[1..], id);
      MarkDeadAliveCount(seats[1..], id);
    }
  }

  /** With unique ids, a living seat is the only living seat carrying its id. */
  lemma {:induction false} AliveWithUniqueId(seats: seq<Seat>, t: nat)
    requires UniqueIds(seats) && t < |seats| && !seats[t].isDead
    ensures AliveWithId(seats, seats[t].id) == 1
  {
    var id := seats[t].id;
    if t == 0 {
      NoOtherWithId(seats[1..], id);
    } else {
      AliveWithUniqueId(seats[1..], t - 1);
    }
  }

  lemma {:induction false} NoOtherWithId(seats: seq<Seat>, id: int)
    requires forall k | 0 <= k < |seats| :: seats[k].id != id
    ensures AliveWithId(seats, id) == 0
  {
    if seats != [] {
      NoOtherWithId(seats[1..], id);
    }
  }

  /** Binding roles keeps every seat's id, and every living seat of the result may use its ability. */
  lemma AssignedSeatsCanAct(seats: seq<Seat>, roleIds: seq<string>)
    requires AssignRoles(seats, roleIds).Ok?
    ensures forall i | 0 <= i < |seats| ::
      AssignRoles(seats, roleIds).value[i].id == seats[i].id
      && (!seats[i].isDead ==> CanUseAbility(AssignRoles(seats, roleIds).value[i]))
  {
  }

  /** Lists whose ids agree position by position have the same first seat for every id. */
  lemma {:induction false} FindSeatSameIds(a: seq<Seat>, b: seq<Seat>, id: int)
    requires |a| == |b| && forall i | 0 <= i < |a| :: a[i].id == b[i].id
    ensures FindSeat(a, id) == FindSeat(b, id)
  {
    if a != [] {
      FindSeatSameIds(a[1..], b[1..], id);
    }
  }

  /** Killing twice is killing once: the second call returns the first call's result. */
  lemma KillIsIdempotent(seats: seq<Seat>, targetId: int, options: KillOptions)
    requires KillPlayer(seats, targetId, options).Ok?
    ensures KillPlayer(KillPlayer(seats, targetId, options).value, targetId, options)
         == KillPlayer(seats, targetId, options)
  {
    var once := KillPlayer(seats, targetId, options).value;
    if once != seats {
      FindSeatSameIds(seats, once, targetId);
    }
  }

  /** A living target protected by an existing, unimpaired seat survives, and nothing changes. */
  lemma ProtectedTargetSurvives(seats: seq<Seat>, t: nat, q: nat, options: KillOptions)
    requires t < |seats| && q < |seats|
    requires FindSeat(seats, seats[t].id) == Some(t) && !seats[t].isDead
    requires options.checkProtection != Some(false)
    requires seats[t].isProtected && seats[t].protectedBy == Some(seats[q].id)
    requires FindSeat(seats, seats[q].id) == Some(q) && !Impaired(seats[q])
    ensures KillPlayer(seats, seats[t].id, options) == Ok(seats)
  {
  }

  /** The protection a target records is void when its protector is missing or
      impaired, or when the caller skips the check; the target then dies unless
      the soldier's night immunity applies. Exactly its seats become dead, the
      alive count drops by one, and the dead seat can no longer use its ability
      unless a flag keeps it. */
  lemma VoidProtectionKills(seats: seq<Seat>, t: nat, options: KillOptions)
    requires UniqueIds(seats) && t < |seats| && !seats[t].isDead
    requires !(options.isNightPhase == Some(true) && HasRoleId(seats[t], Soldier))
    requires options.checkProtection == Some(false) || !seats[t].isProtected
      || seats[t].protectedBy.None? || !ProtectionHolds(seats, seats[t].protectedBy.value)
    ensures KillPlayer(seats, seats[t].id, options).Ok?
    ensures var after := KillPlayer(seats, seats[t].id, options).value;
      && (forall i | 0 <= i < |seats| :: after[i] == if i == t then seats[i].(isDead := true) else seats[i])
      && AliveCount(after) == AliveCount(seats) - 1
      && DeadCount(after) == DeadCount(seats) + 1
      && (CanUseAbility(after[t]) <==> after[t].role.Some? && (after[t].hasAbilityEvenDead || after[t].isFirstDeathForZombuul))
  {
    var id := seats[t].id;
    assert FindSeat(seats, id) == Some(t);
    var after := MarkDead(seats, id);
    MarkDeadAliveCount(seats, id);
    AliveWithUniqueId(seats, t);
    AliveDeadPartition(seats);
    AliveDeadPartition(after);
  }

  /** During the night a soldier is never killed, whether or not it is poisoned or drunk. */
  lemma NightSoldierNeverDies(seats: seq<Seat>, t: nat, options: KillOptions)
    requires t < |seats| && FindSeat(seats, seats[t].id) == Some(t) && HasRoleId(seats[t], Soldier)
    requires options.isNightPhase == Some(true)
    ensures KillPlayer(seats, seats[t].id, options) == Ok(seats)
  {
  }

  /** A target that is already dead is left as it is: the list comes back unchanged. */
  lemma KillDeadIsNoop(seats: seq<Seat>, t: nat, options: KillOptions)
    requires t < |seats| && FindSeat(seats, seats[t].id) == Some(t) && seats[t].isDead
    ensures KillPlayer(seats, seats[t].id, options) == Ok(seats)
  {
  }

  /** A kill changes no seat's role, so every seat holds a role after it exactly when every seat did before. */
  lemma KillKeepsRoles(seats: seq<Seat>, targetId: int, options: KillOptions)
    requires KillPlayer(seats, targetId, options).Ok?
    ensures AllPlayersHaveRoles(KillPlayer(seats, targetId, options).value) <==> AllPlayersHaveRoles(seats)
  {
    var after := KillPlayer(seats, targetId, options).value;
    assert forall i | 0 <= i < |seats| :: after[i].role == seats[i].role;
  }

  /** Blank seats hold no role, so they satisfy the check only when there are none. */
  lemma BlankSeatsLackRoles(n: nat)
    ensures AllPlayersHaveRoles(seq(n, i => BlankSeat(i))) <==> n == 0
  {
    if n > 0 {
      assert seq(n, i => BlankSeat(i))[0].role.None?;
    }
  }

  /** On a freshly initialised table (ids equal positions) ids are unique and seat `i` is found at position `i`. */
  lemma IndexedSeatsAreFound(seats: seq<Seat>)
    requires IdsAreIndices(seats)
    ensures UniqueIds(seats)
    ensures forall i | 0 <= i < |seats| :: FindSeat(seats, i) == Some(i)
    ensures forall id | id < 0 || id >= |seats| :: FindSeat(seats, id).None?
  {
    forall i | 0 <= i < |seats|
      ensures FindSeat(seats, i) == Some(i)
    {
      var r := FindSeat(seats, i);
      assert seats[i].id == i;
      assert r.Some?;
    }
  }
}
