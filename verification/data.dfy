/** The role catalog and the seat record of the Trouble Brewing helper
    (app/data.ts). */
module Data {
  import opened Wrappers

  /** The four role types; townsfolk and outsiders are good, minions and the demon evil. */
  datatype RoleType = Townsfolk | Outsider | Minion | Demon

  /** The kind of night action a role performs. `NoAction` is the source's "none". */
  datatype NightActionType =
    | Poison | Kill | Protect | Mark | Inspect | InspectDeath | SpyInfo | NoAction

  /** The phases of the helper's game screen. */
  datatype GamePhase = Setup | Check | FirstNight | Day | Dusk | Night | DawnReport | GameOver

  /** The identifiers of the 22 catalog roles; `Key` gives the string the source uses. */
  datatype RoleId =
    | Poisoner | Spy | ScarletWoman | Baron | Imp
    | Washerwoman | Librarian | Investigator | Chef | Empath | FortuneTeller
    | Undertaker | Monk | Ravenkeeper | Virgin | Slayer | Soldier | Mayor
    | Butler | Drunk | Recluse | Saint

  /** The catalog key of a role identifier, as written in the source. */
  function Key(id: RoleId): string
  {
    match id
    case Poisoner => "poisoner"
    case Spy => "spy"
    case ScarletWoman => "scarlet_woman"
    case Baron => "baron"
    case Imp => "imp"
    case Washerwoman => "washerwoman"
    case Librarian => "librarian"
    case Investigator => "investigator"
    case Chef => "chef"
    case Empath => "empath"
    case FortuneTeller => "fortune_teller"
    case Undertaker => "undertaker"
    case Monk => "monk"
    case Ravenkeeper => "ravenkeeper"
    case Virgin => "virgin"
    case Slayer => "slayer"
    case Soldier => "soldier"
    case Mayor => "mayor"
    case Butler => "butler"
    case Drunk => "drunk"
    case Recluse => "recluse"
    case Saint => "saint"
  }

  /** A catalog entry. An order of 0 means the role does not wake in that phase. */
  datatype Role = Role(
    id: RoleId,
    name: string,
    roleType: RoleType,
    ability: string,
    firstNight: bool,
    otherNight: bool,
    firstNightOrder: int,
    otherNightOrder: int,
    firstNightReminder: Option<string>,
    otherNightReminder: Option<string>,
    nightActionType: NightActionType)

  /** The catalog, in the source's order. No entry carries a reminder text. */
  const Roles: seq<Role> := [
    Role(Poisoner, "投毒者", Minion, "每晚选一名玩家中毒。", true, true, 1, 1, None, None, Poison),
    Role(Spy, "间谍", Minion, "每晚看魔典。", true, true, 15, 15, None, None, SpyInfo),
    Role(ScarletWoman, "红唇女郎", Minion, "恶魔死后变身。", true, true, 0, 0, None, None, NoAction),
    Role(Baron, "男爵", Minion, "增加外来者。", true, false, 0, 0, None, None, NoAction),
    Role(Imp, "小恶魔", Demon, "每晚杀一人。", true, true, 2, 3, None, None, Kill),
    Role(Washerwoman, "洗衣妇", Townsfolk, "得知村民身份。", true, false, 4, 0, None, None, NoAction),
    Role(Librarian, "图书管理员", Townsfolk, "得知外来者身份。", true, false, 5, 0, None, None, NoAction),
    Role(Investigator, "调查员", Townsfolk, "得知爪牙身份。", true, false, 6, 0, None, None, NoAction),
    Role(Chef, "厨师", Townsfolk, "得知邪恶相邻数。", true, false, 7, 0, None, None, NoAction),
    Role(Empath, "共情者", Townsfolk, "得知邪恶邻居数。", true, true, 8, 8, None, None, NoAction),
    Role(FortuneTeller, "占卜师", Townsfolk, "查验恶魔。", true, true, 9, 9, None, None, Inspect),
    Role(Undertaker, "送葬者", Townsfolk, "得知处决者身份。", false, true, 0, 10, None, None, NoAction),
    Role(Monk, "僧侣", Townsfolk, "保护。", false, true, 0, 2, None, None, Protect),
    Role(Ravenkeeper, "守鸦人", Townsfolk, "死后查验。", false, true, 0, 11, None, None, InspectDeath),
    Role(Virgin, "贞洁者", Townsfolk, "被提名处决提名者。", false, false, 0, 0, None, None, NoAction),
    Role(Slayer, "猎手", Townsfolk, "击杀恶魔。", false, false, 0, 0, None, None, NoAction),
    Role(Soldier, "士兵", Townsfolk, "免死。", false, false, 0, 0, None, None, NoAction),
    Role(Mayor, "镇长", Townsfolk, "苟活获胜。", false, false, 0, 0, None, None, NoAction),
    Role(Butler, "管家", Outsider, "选主人。", true, true, 10, 12, None, None, Mark),
    Role(Drunk, "酒鬼", Outsider, "以为自己是村民。", true, true, 0, 0, None, None, NoAction),
    Role(Recluse, "陌客", Outsider, "误判。", false, false, 0, 0, None, None, NoAction),
    Role(Saint, "圣徒", Outsider, "被处决输。", false, false, 0, 0, None, None, NoAction)
  ]

  /** The position of a role in the catalog. */
  function Index(id: RoleId): nat
  {
    match id
    case Poisoner => 0
    case Spy => 1
    case ScarletWoman => 2
    case Baron => 3
    case Imp => 4
    case Washerwoman => 5
    case Librarian => 6
    case Investigator => 7
    case Chef => 8
    case Empath => 9
    case FortuneTeller => 10
    case Undertaker => 11
    case Monk => 12
    case Ravenkeeper => 13
    case Virgin => 14
    case Slayer => 15
    case Soldier => 16
    case Mayor => 17
    case Butler => 18
    case Drunk => 19
    case Recluse => 20
    case Saint => 21
  }

  lemma CatalogIndexed()
    ensures |Roles| == 22
    ensures forall i | 0 <= i < |Roles| :: Index(Roles[i].id) == i
  {
    IndexedBelow11();
    IndexedFrom11();
  }

  lemma IndexedBelow11()
    ensures forall i | 0 <= i < 11 :: Index(Roles[i].id) == i
  {
    forall i | 0 <= i < 11 ensures Index(Roles[i].id) == i {
      assert i == 0 || i == 1 || i == 2 || i == 3 || i == 4 || i == 5 || i == 6 || i == 7
        || i == 8 || i == 9 || i == 10;
    }
  }

  lemma IndexedFrom11()
    ensures forall i | 11 <= i < 22 :: Index(Roles[i].id) == i
  {
    forall i | 11 <= i < 22 ensures Index(Roles[i].id) == i {
      assert i == 11 || i == 12 || i == 13 || i == 14 || i == 15
        || i == 16 || i == 17 || i == 18 || i == 19 || i == 20 || i == 21;
    }
  }

  /** The catalog entry of an identifier. */
  function RoleOf(id: RoleId): (r: Role)
    ensures r in Roles && r.id == id
  {
    IndexFindsId(id);
    Roles[Index(id)]
  }

  /** `Index` points at the catalog entry of each identifier. */
  lemma IndexFindsId(id: RoleId)
    ensures Index(id) < |Roles| && Roles[Index(id)].id == id
  {
  }

  /** Distinct identifiers have distinct catalog keys. */
  lemma KeysDistinct(a: RoleId, b: RoleId)
    requires a != b
    ensures Key(a) != Key(b)
  {
  }

  /** Only the drunk has the drunk's key. */
  lemma KeyOfDrunk(id: RoleId)
    ensures Key(id) == "drunk" <==> id == Drunk
  {
    assert Key(Drunk) == "drunk";
    if id != Drunk {
      KeysDistinct(id, Drunk);
    }
  }

  /** The first entry of `rs` whose key is `key` (the lookup of a role by its identifier string). */
  function FindIn(rs: seq<Role>, key: string): Option<Role>
  {
    if rs == [] then None
    else if Key(rs[0].id) == key then Some(rs[0])
    else FindIn(rs[1..], key)
  }

  /** The lookup finds an entry with that key when there is one, and fails only when there is none. */
  lemma {:induction false} FindInSpec(rs: seq<Role>, key: string)
    ensures FindIn(rs, key).Some? ==> FindIn(rs, key).value in rs && Key(FindIn(rs, key).value.id) == key
    ensures FindIn(rs, key).None? <==> forall x | x in rs :: Key(x.id) != key
  {
    if rs != [] {
      FindInSpec(rs[1..], key);
      assert rs == [rs[0]] + rs[1..];
    }
  }

  /** Catalog lookup by key. */
  function FindRole(key: string): Option<Role>
  {
    FindIn(Roles, key)
  }

  /** The entries of `rs` whose type is `t`, in their original order. */
  function OfType(rs: seq<Role>, t: RoleType): seq<Role>
  {
    if rs == [] then []
    else (if rs[0].roleType == t then [rs[0]] else []) + OfType(rs[1..], t)
  }

  /** A filtered list holds exactly the entries of that type. */
  lemma {:induction false} OfTypeMembers(rs: seq<Role>, t: RoleType)
    ensures forall x :: x in OfType(rs, t) <==> x in rs && x.roleType == t
  {
    if rs != [] {
      OfTypeMembers(rs[1..], t);
      assert rs == [rs[0]] + rs[1..];
    }
  }

  /** The catalog split by type (the source's `groupedRoles`). */
  datatype Grouped = Grouped(
    townsfolk: seq<Role>, outsider: seq<Role>, minion: seq<Role>, demon: seq<Role>)

  /** The catalog lists each type as one contiguous block, so each group is
      that block; `GroupedByType` shows it is the catalog filtered by type. */
  function GroupedRoles(): Grouped
  {
    Grouped(Roles[5..18], Roles[18..], Roles[..4], Roles[4..5])
  }

  /** The per-player record. `None` stands for the source's `null`; a flag the
      source may leave undefined is `false`. */
  datatype Seat = Seat(
    id: int,
    role: Option<Role>,
    charadeRole: Option<Role>,
    isDead: bool,
    isDrunk: bool,
    isPoisoned: bool,
    isProtected: bool,
    protectedBy: Option<int>,
    isRedHerring: bool,
    isFortuneTellerRedHerring: bool,
    isSentenced: bool,
    masterId: Option<int>,
    hasUsedSlayerAbility: bool,
    hasUsedVirginAbility: bool,
    isDemonSuccessor: bool,
    hasAbilityEvenDead: bool,
    isFirstDeathForZombuul: bool,
    isEvilConverted: bool,
    statusDetails: seq<string>)

  /** A fresh seat with no role and every status flag cleared. */
  function BlankSeat(id: int): Seat
  {
    Seat(id, None, None, false, false, false, false, None, false, false, false, None,
         false, false, false, false, false, false, [])
  }

  /** Whether the seat holds a role with identifier `id`. */
  predicate HasRoleId(s: Seat, id: RoleId)
  {
    s.role.Some? && s.role.value.id == id
  }

  /** Whether the seat holds a role of type `t`. */
  predicate HasRoleType(s: Seat, t: RoleType)
  {
    s.role.Some? && s.role.value.roleType == t
  }

  /** The seat with its protection cleared. */
  function Unprotect(s: Seat): Seat
  {
    s.(isProtected := false, protectedBy := None)
  }

  // ---- Facts about the catalog ----

  /** Role identifiers are pairwise distinct. */
  lemma IdsDistinct()
    ensures forall i, j | 0 <= i < j < |Roles| :: Roles[i].id != Roles[j].id
  {
    CatalogIndexed();
  }

  /** Catalog keys are pairwise distinct, so lookup by key is deterministic. */
  lemma CatalogKeysDistinct()
    ensures forall i, j | 0 <= i < j < |Roles| :: Key(Roles[i].id) != Key(Roles[j].id)
  {
    IdsDistinct();
    forall i, j | 0 <= i < j < |Roles| ensures Key(Roles[i].id) != Key(Roles[j].id) {
      KeysDistinct(Roles[i].id, Roles[j].id);
    }
  }

  /** Looking up an identifier's key finds exactly that identifier's entry. */
  lemma FindRoleOfKey(id: RoleId)
    ensures FindRole(Key(id)) == Some(RoleOf(id))
  {
    CatalogKeysDistinct();
    IndexFindsId(id);
    FindDistinct(Roles, Index(id));
  }

  /** In a list with distinct keys, looking up the key of an entry finds that entry. */
  lemma {:induction false} FindDistinct(rs: seq<Role>, i: nat)
    requires i < |rs|
    requires forall a, b | 0 <= a < b < |rs| :: Key(rs[a].id) != Key(rs[b].id)
    ensures FindIn(rs, Key(rs[i].id)) == Some(rs[i])
  {
    if i > 0 {
      assert Key(rs[0].id) != Key(rs[i].id);
      assert rs[1..][i - 1] == rs[i];
      FindDistinct(rs[1..], i - 1);
    }
  }

  /** Lookup fails exactly for strings that are no catalog key. */
  lemma FindRoleUnknown(key: string)
    ensures FindRole(key).None? <==> forall id: RoleId :: Key(id) != key
  {
    FindInSpec(Roles, key);
    if FindRole(key).None? {
      forall id: RoleId ensures Key(id) != key {
        assert RoleOf(id) in Roles;
      }
    }
  }

  /** Filtering distributes over concatenation. */
  lemma {:induction false} OfTypeAppend(a: seq<Role>, b: seq<Role>, t: RoleType)
    ensures OfType(a + b, t) == OfType(a, t) + OfType(b, t)
  {
    if a == [] {
      assert a + b == b;
    } else {
      var h := if a[0].roleType == t then [a[0]] else [];
      assert (a + b)[0] == a[0] && (a + b)[1..] == a[1..] + b;
      assert OfType(a + b, t) == h + OfType(a[1..] + b, t);
      OfTypeAppend(a[1..], b, t);
      assert h + (OfType(a[1..], t) + OfType(b, t)) == (h + OfType(a[1..], t)) + OfType(b, t);
    }
  }

  /** Filtering a list whose entries all have type `t` keeps it whole. */
  lemma {:induction false} OfTypeAll(s: seq<Role>, t: RoleType)
    requires forall i | 0 <= i < |s| :: s[i].roleType == t
    ensures OfType(s, t) == s
  {
    if s != [] {
      OfTypeAll(s[1..], t);
    }
  }

  /** Filtering a list with no entry of type `t` leaves nothing. */
  lemma {:induction false} OfTypeNone(s: seq<Role>, t: RoleType)
    requires forall i | 0 <= i < |s| :: s[i].roleType != t
    ensures OfType(s, t) == []
  {
    if s != [] {
      OfTypeNone(s[1..], t);
    }
  }

  /** The catalog lists the minions, then the demon, then the townsfolk, then the outsiders. */
  lemma CatalogBlocks()
    ensures Layout(Roles)
  {
    forall i | 0 <= i < 4 ensures Roles[i].roleType == Minion {
      assert i == 0 || i == 1 || i == 2 || i == 3;
    }
    forall i | 5 <= i < 18 ensures Roles[i].roleType == Townsfolk {
      assert i == 5 || i == 6 || i == 7 || i == 8 || i == 9 || i == 10 || i == 11
        || i == 12 || i == 13 || i == 14 || i == 15 || i == 16 || i == 17;
    }
    forall i | 18 <= i < 22 ensures Roles[i].roleType == Outsider {
      assert i == 18 || i == 19 || i == 20 || i == 21;
    }
  }

  /** Filtering a list made of a minion block, a demon block, a townsfolk block
      and an outsider block by type picks that type's block. */
  lemma FourBlocks(m: seq<Role>, d: seq<Role>, tf: seq<Role>, o: seq<Role>, t: RoleType)
    requires forall i | 0 <= i < |m| :: m[i].roleType == Minion
    requires forall i | 0 <= i < |d| :: d[i].roleType == Demon
    requires forall i | 0 <= i < |tf| :: tf[i].roleType == Townsfolk
    requires forall i | 0 <= i < |o| :: o[i].roleType == Outsider
    ensures OfType(m + d + tf + o, t) == match t
      case Minion => m
      case Demon => d
      case Townsfolk => tf
      case Outsider => o
  {
    OfTypeAppend(m + d + tf, o, t);
    OfTypeAppend(m + d, tf, t);
    OfTypeAppend(m, d, t);
    match t {
      case Minion =>
        OfTypeAll(m, t); OfTypeNone(d, t); OfTypeNone(tf, t); OfTypeNone(o, t);
      case Demon =>
        OfTypeNone(m, t); OfTypeAll(d, t); OfTypeNone(tf, t); OfTypeNone(o, t);
      case Townsfolk =>
        OfTypeNone(m, t); OfTypeNone(d, t); OfTypeAll(tf, t); OfTypeNone(o, t);
      case Outsider =>
        OfTypeNone(m, t); OfTypeNone(d, t); OfTypeNone(tf, t); OfTypeAll(o, t);
    }
  }

  /** Each group of `groupedRoles` is the catalog filtered by that type, in catalog order. */
  lemma GroupedByType(t: RoleType)
    ensures OfType(Roles, t) == match t
      case Minion => GroupedRoles().minion
      case Demon => GroupedRoles().demon
      case Townsfolk => GroupedRoles().townsfolk
      case Outsider => GroupedRoles().outsider
  {
    CatalogBlocks();
    LayoutOfType(Roles, t);
  }

  /** The type layout of the catalog: four minions, the demon, thirteen townsfolk, four outsiders. */
  predicate Layout(rs: seq<Role>)
  {
    && |rs| == 22
    && (forall i | 0 <= i < 4 :: rs[i].roleType == Minion)
    && rs[4].roleType == Demon
    && (forall i | 5 <= i < 18 :: rs[i].roleType == Townsfolk)
    && (forall i | 18 <= i < 22 :: rs[i].roleType == Outsider)
  }

  lemma LayoutOfType(rs: seq<Role>, t: RoleType)
    requires Layout(rs)
    ensures OfType(rs, t) == match t
      case Minion => rs[..4]
      case Demon => rs[4..5]
      case Townsfolk => rs[5..18]
      case Outsider => rs[18..]
  {
    var m, d, tf, o := rs[..4], rs[4..5], rs[5..18], rs[18..];
    assert rs == m + d + tf + o;
    FourBlocks(m, d, tf, o, t);
  }

  /** Exactly one catalog role is a demon: the imp. */
  lemma OnlyImpIsDemon()
    ensures GroupedRoles().demon == [RoleOf(Imp)]
  {
    assert Index(Imp) == 4;
  }

  /** The four groups split the catalog: their sizes add up to the catalog's, and
      every catalog role is in the group of its type and in no other. */
  lemma GroupedPartition()
    ensures |GroupedRoles().townsfolk| == 13 && |GroupedRoles().outsider| == 4
    ensures |GroupedRoles().minion| == 4 && |GroupedRoles().demon| == 1
    ensures |GroupedRoles().townsfolk| + |GroupedRoles().outsider|
          + |GroupedRoles().minion| + |GroupedRoles().demon| == |Roles|
    ensures forall r | r in Roles ::
      (r in GroupedRoles().townsfolk <==> r.roleType == Townsfolk) &&
      (r in GroupedRoles().outsider <==> r.roleType == Outsider) &&
      (r in GroupedRoles().minion <==> r.roleType == Minion) &&
      (r in GroupedRoles().demon <==> r.roleType == Demon)
  {
    CatalogBlocks();
    TypeBlocks(Roles);
  }

  /** A list laid out like the catalog: the entries of each type are its block, and only they. */
  lemma TypeBlocks(rs: seq<Role>)
    requires Layout(rs)
    ensures forall r | r in rs ::
      (r in rs[5..18] <==> r.roleType == Townsfolk) &&
      (r in rs[18..] <==> r.roleType == Outsider) &&
      (r in rs[..4] <==> r.roleType == Minion) &&
      (r in rs[4..5] <==> r.roleType == Demon)
    ensures forall x | x in rs[5..18] :: x.roleType == Townsfolk
    ensures forall x | x in rs[18..] :: x.roleType == Outsider
    ensures forall x | x in rs[..4] :: x.roleType == Minion
  {
    BlockMembers(rs, 5, 18, Townsfolk);
    BlockMembers(rs, 18, 22, Outsider);
    BlockMembers(rs, 0, 4, Minion);
    BlockMembers(rs, 4, 5, Demon);
    assert rs[18..] == rs[18..22] && rs[..4] == rs[0..4];
  }

  /** When exactly the positions `lo..hi` of `rs` hold type `t`, the entries of type `t` are those of that block. */
  lemma BlockMembers(rs: seq<Role>, lo: nat, hi: nat, t: RoleType)
    requires lo <= hi <= |rs|
    requires forall i | 0 <= i < |rs| :: (rs[i].roleType == t <==> lo <= i < hi)
    ensures forall r | r in rs :: (r in rs[lo..hi] <==> r.roleType == t)
  {
    forall r | r in rs
      ensures r in rs[lo..hi] <==> r.roleType == t
    {
      var i :| 0 <= i < |rs| && rs[i] == r;
      if r.roleType == t {
        assert rs[lo..hi][i - lo] == r;
      }
      if r in rs[lo..hi] {
        var j :| 0 <= j < hi - lo && rs[lo..hi][j] == r;
        assert rs[lo + j] == r;
      }
    }
  }

  /** A role that does not wake in a phase has order 0 for that phase. */
  lemma InactiveOrderIsZero()
    ensures forall i | 0 <= i < |Roles| ::
      (!Roles[i].firstNight ==> Roles[i].firstNightOrder == 0) &&
      (!Roles[i].otherNight ==> Roles[i].otherNightOrder == 0)
  {
    forall i | 0 <= i < |Roles|
      ensures !Roles[i].firstNight ==> Roles[i].firstNightOrder == 0
      ensures !Roles[i].otherNight ==> Roles[i].otherNightOrder == 0
    {
      assert i == 0 || i == 1 || i == 2 || i == 3 || i == 4 || i == 5 || i == 6 || i == 7
        || i == 8 || i == 9 || i == 10 || i == 11 || i == 12 || i == 13 || i == 14 || i == 15
        || i == 16 || i == 17 || i == 18 || i == 19 || i == 20 || i == 21;
    }
  }

  /** The first-night sheet: the role woken at each order number. */
  function FirstNightAt(order: int): Option<RoleId>
  {
    if order == 1 then Some(Poisoner)
    else if order == 2 then Some(Imp)
    else if order == 4 then Some(Washerwoman)
    else if order == 5 then Some(Librarian)
    else if order == 6 then Some(Investigator)
    else if order == 7 then Some(Chef)
    else if order == 8 then Some(Empath)
    else if order == 9 then Some(FortuneTeller)
    else if order == 10 then Some(Butler)
    else if order == 15 then Some(Spy)
    else None
  }

  /** The other-nights sheet: the role woken at each order number. */
  function OtherNightAt(order: int): Option<RoleId>
  {
    if order == 1 then Some(Poisoner)
    else if order == 2 then Some(Monk)
    else if order == 3 then Some(Imp)
    else if order == 8 then Some(Empath)
    else if order == 9 then Some(FortuneTeller)
    else if order == 10 then Some(Undertaker)
    else if order == 11 then Some(Ravenkeeper)
    else if order == 12 then Some(Butler)
    else if order == 15 then Some(Spy)
    else None
  }

  /** Every non-zero order number of the catalog is the one the night sheets give. */
  lemma OrdersMatchSheets()
    ensures forall i | 0 <= i < |Roles| ::
      (Roles[i].firstNightOrder != 0 ==> FirstNightAt(Roles[i].firstNightOrder) == Some(Roles[i].id)) &&
      (Roles[i].otherNightOrder != 0 ==> OtherNightAt(Roles[i].otherNightOrder) == Some(Roles[i].id))
  {
    forall i | 0 <= i < |Roles|
      ensures Roles[i].firstNightOrder != 0 ==> FirstNightAt(Roles[i].firstNightOrder) == Some(Roles[i].id)
      ensures Roles[i].otherNightOrder != 0 ==> OtherNightAt(Roles[i].otherNightOrder) == Some(Roles[i].id)
    {
      assert i == 0 || i == 1 || i == 2 || i == 3 || i == 4 || i == 5 || i == 6 || i == 7
        || i == 8 || i == 9 || i == 10 || i == 11 || i == 12 || i == 13 || i == 14 || i == 15
        || i == 16 || i == 17 || i == 18 || i == 19 || i == 20 || i == 21;
    }
  }

  /** Within each phase, the non-zero order numbers are pairwise distinct, so
      sorting the woken roles by order is a strict total order. */
  lemma ActiveOrdersDistinct()
    ensures forall i, j | 0 <= i < j < |Roles| ::
      (Roles[i].firstNightOrder != 0 ==> Roles[i].firstNightOrder != Roles[j].firstNightOrder) &&
      (Roles[i].otherNightOrder != 0 ==> Roles[i].otherNightOrder != Roles[j].otherNightOrder)
  {
    OrdersMatchSheets();
    IdsDistinct();
  }
}
