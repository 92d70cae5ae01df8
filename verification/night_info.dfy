// The storyteller's night prompt for one seat: which role the seat acts as,
// whether its ability is impaired, and the true and the false instruction to
// give it.

module NightInfo {
  import opened Wrappers
  import opened Data
  import opened GameLogic

  /** One instruction line: plain text, or the template that shows a role and two seat numbers. */
  datatype Instruction =
    | Text(text: string)
    | ShowRole(roleName: string, shownNumber: int, decoyNumber: Option<int>)

  /** The prompt for one seat. */
  datatype Info = Info(
    seat: Seat,
    effectiveRole: Role,
    isPoisoned: bool,
    reason: string,
    realInfo: Instruction,
    fakeInfo: Instruction)

  const PoisonedLabel: string := "中毒"
  const DrunkLabel: string := "酒鬼"
  const NoAction: Instruction := Text("无行动")

  /** The role whose ability the seat believes it has: a drunk acts as its charade role. */
  function EffectiveRole(seat: Seat): Option<Role>
    requires seat.role.Some?
  {
    if seat.role.value.id == Drunk then seat.charadeRole else seat.role
  }

  /** The character type each first-night information role learns about. */
  function LearnedType(id: RoleId): Option<RoleType>
  {
    match id
    case Washerwoman => Some(Townsfolk)
    case Librarian => Some(Outsider)
    case Investigator => Some(Minion)
    case _ => None
  }

  /** The seats, other than the actor, whose true role has type `t`, in table order. */
  function Pool(seats: seq<Seat>, t: RoleType, actorId: int): (p: seq<Seat>)
    ensures |p| <= |seats|
    ensures forall s :: s in p <==>
      s in seats && s.role.Some? && s.role.value.roleType == t && s.id != actorId
  {
    if seats == [] then []
    else
      var rest := Pool(seats[1..], t, actorId);
      var s := seats[0];
      if s.role.Some? && s.role.value.roleType == t && s.id != actorId then [s] + rest else rest
  }

  /** The first seat whose id is neither `a` nor `b`. */
  function FirstOther(seats: seq<Seat>, a: int, b: int): (r: Option<nat>)
    ensures r.Some? ==>
      && r.value < |seats| && seats[r.value].id != a && seats[r.value].id != b
      && forall k | 0 <= k < r.value :: seats[k].id == a || seats[k].id == b
    ensures r.None? ==> forall k | 0 <= k < |seats| :: seats[k].id == a || seats[k].id == b
  {
    if seats == [] then None
    else if seats[0].id != a && seats[0].id != b then Some(0)
    else match FirstOther(seats[1..], a, b)
      case None => None
      case Some(k) => Some(k + 1)
  }

  /** A role's reminder for the phase; a missing reminder is the empty text. */
  function Reminder(role: Role, phase: GamePhase): string
  {
    var rem := if phase == FirstNight then role.firstNightReminder else role.otherNightReminder;
    if rem.Some? then rem.value else ""
  }

  /** The true and the false instruction for a seat acting as `eff`; `pick` is the random draw. */
  function Instructions(seats: seq<Seat>, actor: Seat, eff: Role, phase: GamePhase, pick: nat): (Instruction, Instruction)
  {
    if eff.id == Imp then
      (Text(if phase == FirstNight then "展示爪牙" else "选择玩家杀害"), Text("展示伪造爪牙/选择玩家(无效)"))
    else if eff.id == Poisoner then
      (Text("选择玩家下毒"), Text("选择玩家(无效)"))
    else if eff.id == FortuneTeller then
      (Text("查验2名玩家"), Text("随意查验"))
    else if eff.id == Spy then
      (Text("查看魔典"), Text("查看魔典"))
    else if LearnedType(eff.id).Some? && phase == FirstNight then
      var pool := Pool(seats, LearnedType(eff.id).value, actor.id);
      if |pool| > 0 then
        var t := pool[pick % |pool|];
        var d := FirstOther(seats, t.id, actor.id);
        (ShowRole(t.role.value.name, t.id + 1, if d.Some? then Some(seats[d.value].id + 1) else None),
         Text("展示错误信息"))
      else
        (Text("无角色显示0"), Text("显示1"))
    else
      (Text(Reminder(eff, phase)), Text("提供无效信息"))
  }

  /** Whether the seat with `id` would get a prompt: it exists, has a role, and a drunk has a charade role. */
  predicate HasPrompt(seats: seq<Seat>, id: int)
  {
    var k := FindSeat(seats, id);
    k.Some? && seats[k.value].role.Some? && EffectiveRole(seats[k.value]) != None
  }

  /**
   * The prompt for the seat with id `currentSeatId`; None when the seat is
   * missing, has no role, or is a drunk without a charade role.
   */
  function CalculateNightInfo(seats: seq<Seat>, currentSeatId: int, phase: GamePhase, pick: nat): (r: Option<Info>)
    ensures r.Some? <==> HasPrompt(seats, currentSeatId)
    ensures r.Some? ==>
      && r.value.seat == seats[FindSeat(seats, currentSeatId).value]
      && r.value.seat.id == currentSeatId
      && r.value.realInfo != Text("")
      && (r.value.isPoisoned <==>
            r.value.seat.isPoisoned || r.value.seat.isDrunk || r.value.seat.role.value.id == Drunk)
      && (r.value.reason == PoisonedLabel <==> r.value.seat.isPoisoned)
      && (r.value.reason == DrunkLabel <==> !r.value.seat.isPoisoned)
  {
    match FindSeat(seats, currentSeatId)
    case None => None
    case Some(k) =>
      var seat := seats[k];
      if seat.role.None? then None
      else match EffectiveRole(seat)
        case None => None
        case Some(eff) =>
          var poisoned := seat.isPoisoned || seat.isDrunk || seat.role.value.id == Drunk;
          var reason := if seat.isPoisoned then PoisonedLabel else DrunkLabel;
          var ins := Instructions(seats, seat, eff, phase, pick);
          Some(Info(seat, eff, poisoned, reason, if ins.0 == Text("") then NoAction else ins.0, ins.1))
  }

  // ---- Properties ----

  /** A drunk seat with a charade role is prompted as that role, and always counts as impaired. */
  lemma DrunkActsAsCharade(seats: seq<Seat>, k: nat, phase: GamePhase, pick: nat)
    requires k < |seats| && FindSeat(seats, seats[k].id) == Some(k)
    requires seats[k].role.Some? && seats[k].role.value.id == Drunk && seats[k].charadeRole.Some?
    ensures CalculateNightInfo(seats, seats[k].id, phase, pick).Some?
    ensures CalculateNightInfo(seats, seats[k].id, phase, pick).value.effectiveRole == seats[k].charadeRole.value
    ensures CalculateNightInfo(seats, seats[k].id, phase, pick).value.isPoisoned
  {
  }

  /** Any other seat with a role is prompted as its own role. */
  lemma SoberActsAsOwnRole(seats: seq<Seat>, k: nat, phase: GamePhase, pick: nat)
    requires k < |seats| && FindSeat(seats, seats[k].id) == Some(k)
    requires seats[k].role.Some? && seats[k].role.value.id != Drunk
    ensures CalculateNightInfo(seats, seats[k].id, phase, pick).Some?
    ensures CalculateNightInfo(seats, seats[k].id, phase, pick).value.effectiveRole == seats[k].role.value
  {
  }

  /**
   * When the prompt shows a role, the shown seat is another seat whose true
   * role has the type the information role learns, and the decoy number
   * belongs to a third seat; the decoy is missing only when no third seat
   * exists.
   */
  lemma ShownSeatHasLearnedType(seats: seq<Seat>, id: int, phase: GamePhase, pick: nat)
    requires CalculateNightInfo(seats, id, phase, pick).Some?
    requires CalculateNightInfo(seats, id, phase, pick).value.realInfo.ShowRole?
    ensures var info := CalculateNightInfo(seats, id, phase, pick).value;
      && phase == FirstNight
      && LearnedType(info.effectiveRole.id).Some?
      && exists j | 0 <= j < |seats| ::
        && seats[j].id != id
        && seats[j].role.Some?
        && seats[j].role.value.roleType == LearnedType(info.effectiveRole.id).value
        && info.realInfo.roleName == seats[j].role.value.name
        && info.realInfo.shownNumber == seats[j].id + 1
        && (info.realInfo.decoyNumber.Some? ==> exists d | 0 <= d < |seats| ::
              seats[d].id != seats[j].id && seats[d].id != id && info.realInfo.decoyNumber.value == seats[d].id + 1)
        && (info.realInfo.decoyNumber.None? ==> forall d | 0 <= d < |seats| ::
              seats[d].id == seats[j].id || seats[d].id == id)
  {
    var k := FindSeat(seats, id).value;
    var seat := seats[k];
    var eff := EffectiveRole(seat).value;
    var info := CalculateNightInfo(seats, id, phase, pick).value;
    assert info.effectiveRole == eff && seat.id == id;
    assert info.realInfo == Instructions(seats, seat, eff, phase, pick).0;
    InstructionShowsRole(seats, seat, eff, phase, pick);
  }

  /** The instruction that shows a role names another seat of the learned type, and a third seat as decoy when one exists. */
  lemma InstructionShowsRole(seats: seq<Seat>, actor: Seat, eff: Role, phase: GamePhase, pick: nat)
    requires Instructions(seats, actor, eff, phase, pick).0.ShowRole?
    ensures var shown := Instructions(seats, actor, eff, phase, pick).0;
      && phase == FirstNight
      && LearnedType(eff.id).Some?
      && exists j | 0 <= j < |seats| ::
        && seats[j].id != actor.id
        && seats[j].role.Some?
        && seats[j].role.value.roleType == LearnedType(eff.id).value
        && shown.roleName == seats[j].role.value.name
        && shown.shownNumber == seats[j].id + 1
        && (shown.decoyNumber.Some? ==> exists d | 0 <= d < |seats| ::
              seats[d].id != seats[j].id && seats[d].id != actor.id && shown.decoyNumber.value == seats[d].id + 1)
        && (shown.decoyNumber.None? ==> forall d | 0 <= d < |seats| ::
              seats[d].id == seats[j].id || seats[d].id == actor.id)
  {
    assert eff.id != Imp && eff.id != Poisoner && eff.id != FortuneTeller && eff.id != Spy;
    assert LearnedType(eff.id).Some? && phase == FirstNight;
    var pool := Pool(seats, LearnedType(eff.id).value, actor.id);
    assert |pool| > 0;
    var t := pool[pick % |pool|];
    var d := FirstOther(seats, t.id, actor.id);
    assert Instructions(seats, actor, eff, phase, pick).0
      == ShowRole(t.role.value.name, t.id + 1, if d.Some? then Some(seats[d.value].id + 1) else None);
    assert t in pool;
    var j :| 0 <= j < |seats| && seats[j] == t;
    if d.Some? {
      assert seats[d.value].id != seats[j].id && seats[d.value].id != actor.id;
    }
  }

  /**
   * On the first night an information role is shown a seat exactly when some
   * other seat's true role has the learned type; otherwise it is told zero.
   */
  lemma ShowsRoleIffPoolNonEmpty(seats: seq<Seat>, id: int, pick: nat)
    requires CalculateNightInfo(seats, id, FirstNight, pick).Some?
    requires LearnedType(CalculateNightInfo(seats, id, FirstNight, pick).value.effectiveRole.id).Some?
    ensures var info := CalculateNightInfo(seats, id, FirstNight, pick).value;
      var t := LearnedType(info.effectiveRole.id).value;
      && (info.realInfo.ShowRole? <==>
            exists j | 0 <= j < |seats| ::
              seats[j].id != id && seats[j].role.Some? && seats[j].role.value.roleType == t)
      && (info.realInfo.ShowRole? ==> info.fakeInfo == Text("展示错误信息"))
      && (!info.realInfo.ShowRole? ==> info.realInfo == Text("无角色显示0") && info.fakeInfo == Text("显示1"))
  {
    var info := CalculateNightInfo(seats, id, FirstNight, pick).value;
    var t := LearnedType(info.effectiveRole.id).value;
    var pool := Pool(seats, t, id);
    if exists j | 0 <= j < |seats| ::
         seats[j].id != id && seats[j].role.Some? && seats[j].role.value.roleType == t {
      var j :| 0 <= j < |seats| && seats[j].id != id && seats[j].role.Some? && seats[j].role.value.roleType == t;
      assert seats[j] in pool;
    }
  }

  /** The random draw only decides which seat is shown: every other part of the prompt is the same. */
  lemma DrawOnlyChoosesShownSeat(seats: seq<Seat>, id: int, phase: GamePhase, p1: nat, p2: nat)
    requires CalculateNightInfo(seats, id, phase, p1).Some?
    ensures CalculateNightInfo(seats, id, phase, p2).Some?
    ensures var a := CalculateNightInfo(seats, id, phase, p1).value;
      var b := CalculateNightInfo(seats, id, phase, p2).value;
      && a.(realInfo := b.realInfo) == b
      && (a.realInfo.ShowRole? <==> b.realInfo.ShowRole?)
      && (!a.realInfo.ShowRole? ==> a.realInfo == b.realInfo)
  {
  }

  /** A poisoned or drunk spy still sees the grimoire: its false instruction equals its true one. */
  lemma SpyFakeEqualsReal(seats: seq<Seat>, id: int, phase: GamePhase, pick: nat)
    requires CalculateNightInfo(seats, id, phase, pick).Some?
    requires CalculateNightInfo(seats, id, phase, pick).value.effectiveRole.id == Spy
    ensures CalculateNightInfo(seats, id, phase, pick).value.fakeInfo
         == CalculateNightInfo(seats, id, phase, pick).value.realInfo
  {
  }

  /** The imp is shown its minions on the first night and chooses a victim on every other night. */
  lemma ImpPromptByPhase(seats: seq<Seat>, id: int, phase: GamePhase, pick: nat)
    requires CalculateNightInfo(seats, id, phase, pick).Some?
    requires CalculateNightInfo(seats, id, phase, pick).value.effectiveRole.id == Imp
    ensures CalculateNightInfo(seats, id, phase, pick).value.realInfo
         == Text(if phase == FirstNight then "展示爪牙" else "选择玩家杀害")
  {
  }

  /** No catalog role carries a reminder text. */
  lemma CatalogHasNoReminders()
    ensures forall i | 0 <= i < |Roles| ::
      Roles[i].firstNightReminder.None? && Roles[i].otherNightReminder.None?
  {
    forall i | 0 <= i < |Roles|
      ensures Roles[i].firstNightReminder.None? && Roles[i].otherNightReminder.None?
    {
      assert i == 0 || i == 1 || i == 2 || i == 3 || i == 4 || i == 5 || i == 6 || i == 7
        || i == 8 || i == 9 || i == 10 || i == 11 || i == 12 || i == 13 || i == 14 || i == 15
        || i == 16 || i == 17 || i == 18 || i == 19 || i == 20 || i == 21;
    }
  }

  /**
   * With the catalog's roles, every role other than the imp, poisoner,
   * fortune teller, spy and the first-night information roles is told that it
   * has no action, and its false instruction is the generic one.
   */
  lemma CatalogFallbackIsNoAction(seats: seq<Seat>, id: int, phase: GamePhase, pick: nat)
    requires CalculateNightInfo(seats, id, phase, pick).Some?
    requires CalculateNightInfo(seats, id, phase, pick).value.effectiveRole in Roles
    requires CalculateNightInfo(seats, id, phase, pick).value.effectiveRole.id !in {Imp, Poisoner, FortuneTeller, Spy}
    requires !(phase == FirstNight && LearnedType(CalculateNightInfo(seats, id, phase, pick).value.effectiveRole.id).Some?)
    ensures CalculateNightInfo(seats, id, phase, pick).value.realInfo == NoAction
    ensures CalculateNightInfo(seats, id, phase, pick).value.fakeInfo == Text("提供无效信息")
  {
    CatalogHasNoReminders();
  }
}
