// The machinery the three night/day simulators share: the Fisher–Yates
// shuffle, the Trouble Brewing presets, the deal, the win check, the night
// actions and the two kinds of day, all over a game context whose fields the
// steps update in place. The simulators differ in a handful of rules (logging,
// the first-night rest of the demon, clearing protection, voting), which
// `Rules` names; every random draw is an input.

module SimCommon {
  import opened Wrappers
  import opened Data
  import opened GameLogic

  // ---- Shuffle ----

  /** The sequence with positions `i` and `j` exchanged. */
  function Swap<T>(s: seq<T>, i: nat, j: nat): (r: seq<T>)
    requires i < |s| && j < |s|
    ensures |r| == |s|
    ensures r[i] == s[j] && r[j] == s[i]
    ensures forall k | 0 <= k < |s| && k != i && k != j :: r[k] == s[k]
  {
    s[i := s[j]][j := s[i]]
  }

  /** A random number reduced to a position below `n`. */
  function Pick(x: nat, n: nat): (r: nat)
    requires n > 0
    ensures r < n
  {
    x % n
  }

  /** Fisher–Yates from position `i` down to 1: position `i` is exchanged with `draw(i) mod (i + 1)`. */
  function ShuffleDown<T>(s: seq<T>, draw: nat -> nat, i: nat): (r: seq<T>)
    requires i < |s|
    ensures |r| == |s|
    decreases i
  {
    if i == 0 then s else ShuffleDown(Swap(s, i, Pick(draw(i), i + 1)), draw, i - 1)
  }

  /** The order the shuffle produces for the draws `draw`. */
  function Shuffled<T>(s: seq<T>, draw: nat -> nat): seq<T>
  {
    if |s| == 0 then s else ShuffleDown(s, draw, |s| - 1)
  }

  lemma SwapPermutes<T>(s: seq<T>, i: nat, j: nat)
    requires i < |s| && j < |s|
    ensures multiset(Swap(s, i, j)) == multiset(s)
  {
  }

  lemma {:induction false} ShuffleDownPermutes<T>(s: seq<T>, draw: nat -> nat, i: nat)
    requires i < |s|
    ensures |ShuffleDown(s, draw, i)| == |s| && multiset(ShuffleDown(s, draw, i)) == multiset(s)
    decreases i
  {
    if i > 0 {
      SwapPermutes(s, i, Pick(draw(i), i + 1));
      ShuffleDownPermutes(Swap(s, i, Pick(draw(i), i + 1)), draw, i - 1);
    }
  }

  /** Whatever the draws, the shuffle is a permutation of its input. */
  lemma ShuffledPermutes<T>(s: seq<T>, draw: nat -> nat)
    ensures |Shuffled(s, draw)| == |s| && multiset(Shuffled(s, draw)) == multiset(s)
  {
    if |s| > 0 {
      ShuffleDownPermutes(s, draw, |s| - 1);
    }
  }

  lemma {:induction false} ShuffleDownKeepsTail<T>(s: seq<T>, draw: nat -> nat, i: nat, k: nat)
    requires i < k < |s|
    ensures ShuffleDown(s, draw, i)[k] == s[k]
    decreases i
  {
    if i > 0 {
      var t := Swap(s, i, Pick(draw(i), i + 1));
      ShuffleDownKeepsTail(t, draw, i - 1, k);
      assert ShuffleDown(s, draw, i) == ShuffleDown(t, draw, i - 1);
    }
  }

  /** The last position is settled by the first exchange: it holds the entry the first draw picks. */
  lemma ShuffledLast<T>(s: seq<T>, draw: nat -> nat)
    requires |s| > 0
    ensures |Shuffled(s, draw)| == |s|
    ensures Shuffled(s, draw)[|s| - 1] == s[Pick(draw(|s| - 1), |s|)]
  {
    var n := |s|;
    var j := Pick(draw(n - 1), n);
    if n == 1 {
      assert j == 0;
      assert Shuffled(s, draw) == s;
    } else {
      var t := Swap(s, n - 1, j);
      ShuffleDownKeepsTail(t, draw, n - 2, n - 1);
      assert Shuffled(s, draw) == ShuffleDown(t, draw, n - 2);
      assert t[n - 1] == s[j];
    }
  }

  /** Shuffles a copy of `items` in place, from the last position down to the second. */
  method Shuffle<T>(items: seq<T>, draw: nat -> nat) returns (r: seq<T>)
    ensures r == Shuffled(items, draw)
  {
    if |items| == 0 {
      return items;
    }
    var a := new T[|items|](k requires 0 <= k < |items| => items[k]);
    assert a[..] == items;
    var i := a.Length - 1;
    while i > 0
      invariant 0 <= i < a.Length
      invariant ShuffleDown(a[..], draw, i) == Shuffled(items, draw)
    {
      var j := Pick(draw(i), i + 1);
      ghost var before := a[..];
      assert ShuffleDown(before, draw, i) == ShuffleDown(Swap(before, i, j), draw, i - 1);
      var tmp := a[i];
      a[i] := a[j];
      a[j] := tmp;
      assert a[..] == before[i := before[j]][j := before[i]];
      i := i - 1;
    }
    r := a[..];
  }

  // ---- Presets ----

  /** A recommended split of `total` players into the four character types. */
  datatype Preset = Preset(total: int, townsfolk: nat, outsider: nat, minion: nat, demon: nat)

  const Presets: seq<Preset> := [
    Preset(5, 3, 0, 1, 1),
    Preset(6, 3, 1, 1, 1),
    Preset(7, 5, 0, 1, 1),
    Preset(8, 5, 1, 1, 1),
    Preset(9, 5, 2, 1, 1),
    Preset(10, 7, 0, 2, 1),
    Preset(11, 7, 1, 2, 1),
    Preset(12, 7, 2, 2, 1),
    Preset(13, 9, 0, 3, 1),
    Preset(14, 9, 1, 3, 1),
    Preset(15, 9, 4, 2, 1)
  ]

  function Size(p: Preset): nat
  {
    p.townsfolk + p.outsider + p.minion + p.demon
  }

  /** The first preset of `ps` for `count` players. */
  function FindPreset(ps: seq<Preset>, count: int): (r: Option<Preset>)
    ensures r.Some? ==> r.value in ps && r.value.total == count
    ensures r.None? ==> forall k | 0 <= k < |ps| :: ps[k].total != count
  {
    if ps == [] then None
    else if ps[0].total == count then Some(ps[0])
    else FindPreset(ps[1..], count)
  }

  lemma {:induction false} FindPresetAt(ps: seq<Preset>, k: nat, count: int)
    requires k < |ps| && ps[k].total == count
    requires forall j | 0 <= j < k :: ps[j].total != count
    ensures FindPreset(ps, count) == Some(ps[k])
  {
    if k > 0 {
      FindPresetAt(ps[1..], k - 1, count);
    }
  }

  /** Row `i` of the table is for `5 + i` players and has exactly that many roles, except the last row, which has 16. */
  lemma PresetTable()
    ensures |Presets| == 11
    ensures forall i | 0 <= i < 11 :: Presets[i].total == 5 + i
    ensures forall i | 0 <= i < 10 :: Size(Presets[i]) == Presets[i].total
    ensures Size(Presets[10]) == 16 && Presets[10].total == 15
    ensures forall i | 0 <= i < 11 ::
      Presets[i].demon == 1 && Presets[i].townsfolk <= 13 && Presets[i].outsider <= 4 && Presets[i].minion <= 4
  {
  }

  /** Every player count from 5 to 15 has its preset, and no other count has one. */
  lemma PresetFor(count: int)
    ensures 5 <= count <= 15 ==> FindPreset(Presets, count) == Some(Presets[count - 5])
    ensures !(5 <= count <= 15) ==> FindPreset(Presets, count).None?
  {
    PresetTable();
    if 5 <= count <= 15 {
      FindPresetAt(Presets, count - 5, count);
    }
  }

  /** The first `n` entries, or all of them when there are fewer. */
  function Take<T>(s: seq<T>, n: nat): (r: seq<T>)
    ensures |r| == if n < |s| then n else |s|
    ensures r == s[..|r|]
  {
    if n < |s| then s[..n] else s
  }

  // ---- Setup ----

  /** The random numbers of a setup: the player count, one shuffle per role type, and the deal. */
  datatype SetupDraws = SetupDraws(
    total: nat,
    townsfolk: nat -> nat, outsider: nat -> nat, minion: nat -> nat, demon: nat -> nat,
    deal: nat -> nat)

  /** `pickByType`: the first `count` entries of a shuffled copy of `pool`. */
  function PickByType<T>(pool: seq<T>, count: nat, draw: nat -> nat): seq<T>
  {
    Take(Shuffled(pool, draw), count)
  }

  /** The roles a preset picks from the type groups `g`: townsfolk, then outsiders, minions and demons. */
  function Picked(g: Grouped, p: Preset, d: SetupDraws): seq<Role>
  {
    PickByType(g.townsfolk, p.townsfolk, d.townsfolk) + PickByType(g.outsider, p.outsider, d.outsider)
    + PickByType(g.minion, p.minion, d.minion) + PickByType(g.demon, p.demon, d.demon)
  }

  /** `total` blank seats, seat `i` bound to the `i`-th dealt role; roles past `total` are not seated. */
  function Dealt(total: nat, dealt: seq<Role>): (r: seq<Seat>)
    requires total <= |dealt|
    ensures |r| == total
  {
    seq(total, i requires 0 <= i < total => Bind(BlankSeat(i), dealt[i]))
  }

  /** The player count drawn from `lo..hi`. */
  function Total(lo: nat, hi: nat, d: SetupDraws): (n: nat)
    requires lo <= hi
    ensures lo <= n <= hi
  {
    lo + Pick(d.total, hi - lo + 1)
  }

  /** The order in which the picked roles are dealt. */
  function DealOrder(g: Grouped, lo: nat, hi: nat, d: SetupDraws): seq<Role>
    requires 5 <= lo <= hi <= 15
  {
    var total := Total(lo, hi, d);
    PresetFor(total);
    Shuffled(Picked(g, FindPreset(Presets, total).value, d), d.deal)
  }

  /** `initGame`: the preset for the drawn count, its picked roles shuffled and dealt to the seats in order. */
  function Dealing(g: Grouped, lo: nat, hi: nat, d: SetupDraws): State
    requires CatalogGroups(g) && 5 <= lo <= hi <= 15
  {
    SetupFits(g, lo, hi, d);
    State(Dealt(Total(lo, hi, d), DealOrder(g, lo, hi, d)), 1, 1, None, [])
  }

  /** What the deal needs of the type groups: the catalog's counts, catalog roles of the right type, and a single demon. */
  predicate CatalogGroups(g: Grouped)
  {
    && |g.townsfolk| == 13 && |g.outsider| == 4 && |g.minion| == 4
    && |g.demon| == 1 && g.demon[0].roleType == Demon
    && (forall x | x in g.townsfolk :: x.roleType == Townsfolk)
    && (forall x | x in g.outsider :: x.roleType == Outsider)
    && (forall x | x in g.minion :: x.roleType == Minion)
  }

  /** The catalog's roles grouped by type: the pools `filterRoles` yields for the deal. */
  function Catalog(): (g: Grouped)
    ensures g == GroupedRoles() && CatalogGroups(g)
  {
    GroupedFit();
    GroupedRoles()
  }

  /** `groupedRoles` has that shape. */
  lemma GroupedFit()
    ensures CatalogGroups(GroupedRoles())
  {
    CatalogBlocks();
    LayoutGroups(Roles);
  }

  /** The blocks of a list laid out like the catalog have the shape the deal needs. */
  lemma LayoutGroups(rs: seq<Role>)
    requires Layout(rs)
    ensures CatalogGroups(Grouped(rs[5..18], rs[18..], rs[..4], rs[4..5]))
  {
    TypeBlocks(rs);
  }

  /** Taking from a shuffle: as many entries as asked for, or all of them, each an entry of the input. */
  lemma TakeShuffled<T>(s: seq<T>, draw: nat -> nat, count: nat)
    ensures |PickByType(s, count, draw)| == Min(count, |s|)
    ensures forall x | x in PickByType(s, count, draw) :: x in s
  {
    var u := Shuffled(s, draw);
    ShuffledPermutes(s, draw);
    forall x | x in Take(u, count)
      ensures x in s
    {
      assert x in u;
      assert x in multiset(u);
    }
  }

  /** A one-entry list shuffles to itself. */
  lemma ShuffledSingle<T>(s: seq<T>, draw: nat -> nat)
    requires |s| == 1
    ensures Shuffled(s, draw) == s
  {
  }

  function Min(a: nat, b: nat): nat
  {
    if a < b then a else b
  }

  /** A preset within the groups' counts picks exactly its size in roles. */
  lemma PickedSize(g: Grouped, p: Preset, d: SetupDraws)
    requires CatalogGroups(g)
    requires p.townsfolk <= 13 && p.outsider <= 4 && p.minion <= 4 && p.demon <= 1
    ensures |Picked(g, p, d)| == Size(p)
  {
    TakeShuffled(g.townsfolk, d.townsfolk, p.townsfolk);
    TakeShuffled(g.outsider, d.outsider, p.outsider);
    TakeShuffled(g.minion, d.minion, p.minion);
    TakeShuffled(g.demon, d.demon, p.demon);
  }

  /** Every count's preset fits the catalog: the picked roles number 16 for 15 players and exactly the player count otherwise. */
  lemma SetupFits(g: Grouped, lo: nat, hi: nat, d: SetupDraws)
    requires CatalogGroups(g) && 5 <= lo <= hi <= 15
    ensures FindPreset(Presets, Total(lo, hi, d)).Some?
    ensures var n := Total(lo, hi, d);
      |DealOrder(g, lo, hi, d)| == (if n == 15 then 16 else n)
  {
    PresetFitsGroups(g, Total(lo, hi, d), d);
  }

  lemma PresetFitsGroups(g: Grouped, n: nat, d: SetupDraws)
    requires CatalogGroups(g) && 5 <= n <= 15
    ensures FindPreset(Presets, n).Some? && FindPreset(Presets, n).value.demon == 1
    ensures |Picked(g, FindPreset(Presets, n).value, d)| == if n == 15 then 16 else n
    ensures |Shuffled(Picked(g, FindPreset(Presets, n).value, d), d.deal)| == if n == 15 then 16 else n
  {
    PresetFor(n);
    PresetTable();
    var p := Presets[n - 5];
    PickedSize(g, p, d);
    ShuffledPermutes(Picked(g, p, d), d.deal);
  }

  /** Whatever the draws, a preset's picked roles are catalog roles, and the one demon-type role among them is the last. */
  lemma PickedShape(g: Grouped, p: Preset, d: SetupDraws)
    requires CatalogGroups(g) && p.demon == 1
    ensures |Picked(g, p, d)| > 0 && Picked(g, p, d)[|Picked(g, p, d)| - 1] == g.demon[0]
    ensures forall i | 0 <= i < |Picked(g, p, d)| - 1 :: Picked(g, p, d)[i].roleType != Demon
  {
    TakeShuffled(g.townsfolk, d.townsfolk, p.townsfolk);
    TakeShuffled(g.outsider, d.outsider, p.outsider);
    TakeShuffled(g.minion, d.minion, p.minion);
    ShuffledSingle(g.demon, d.demon);
    var front := PickByType(g.townsfolk, p.townsfolk, d.townsfolk) + PickByType(g.outsider, p.outsider, d.outsider)
      + PickByType(g.minion, p.minion, d.minion);
    assert Picked(g, p, d) == front + [g.demon[0]];
    forall i | 0 <= i < |front|
      ensures front[i].roleType != Demon
    {
      assert front[i] in front;
    }
  }

  /** In a list where every demon-type entry is `x` and `x` occurs once, `x` is found and no two positions hold a demon. */
  lemma OneDemon(u: seq<Role>, x: Role)
    requires multiset(u)[x] == 1 && x.roleType == Demon
    requires forall i | 0 <= i < |u| :: u[i].roleType == Demon ==> u[i] == x
    ensures exists i | 0 <= i < |u| :: u[i] == x
    ensures forall i, j | 0 <= i < j < |u| :: !(u[i].roleType == Demon && u[j].roleType == Demon)
  {
    assert x in multiset(u);
    assert x in u;
    forall i, j | 0 <= i < j < |u| && u[i].roleType == Demon
      ensures u[j].roleType != Demon
    {
      if u[j].roleType == Demon {
        TwoCopies(u, x, i, j);
        assert false;
      }
    }
  }

  lemma TwoCopies<T>(u: seq<T>, x: T, i: nat, j: nat)
    requires i < j < |u| && u[i] == x && u[j] == x
    ensures multiset(u)[x] >= 2
  {
    assert u == u[..j] + u[j..];
    assert u[..j][i] == x;
    assert u[j..][0] == x;
  }

  /** The dealt order holds the picked roles, so its only demon-type entry is the groups' demon, once. */
  lemma DealtDemon(g: Grouped, p: Preset, d: SetupDraws)
    requires CatalogGroups(g) && p.demon == 1
    ensures var u := Shuffled(Picked(g, p, d), d.deal);
      && |u| == |Picked(g, p, d)| > 0
      && (forall i | 0 <= i < |u| :: u[i].roleType == Demon ==> u[i] == g.demon[0])
      && multiset(u)[g.demon[0]] == 1
  {
    var s := Picked(g, p, d);
    var u := Shuffled(s, d.deal);
    PickedShape(g, p, d);
    ShuffledPermutes(s, d.deal);
    var n := |s| - 1;
    assert s == s[..n] + [g.demon[0]];
    assert g.demon[0] !in s[..n] by {
      forall i | 0 <= i < n ensures s[..n][i] != g.demon[0] {
        assert s[i].roleType != Demon;
      }
    }
    assert multiset(s)[g.demon[0]] == multiset(s[..n])[g.demon[0]] + 1;
    forall i | 0 <= i < |u|
      ensures u[i].roleType == Demon ==> u[i] == g.demon[0]
    {
      assert u[i] in multiset(u);
      assert u[i] in s;
    }
  }

  /** Dealt seats: seat `i` has id `i` and holds the `i`-th dealt role, is drunk exactly when that role is the drunk, and is otherwise blank. */
  lemma DealtSeats(n: nat, u: seq<Role>)
    requires n <= |u|
    ensures var seats := Dealt(n, u);
      && ValidSeats(seats)
      && forall i | 0 <= i < n ::
        && seats[i].role == Some(u[i])
        && (seats[i].isDrunk <==> u[i].id == Drunk)
        && seats[i] == BlankSeat(i).(role := seats[i].role, isDrunk := seats[i].isDrunk)
  {
  }

  /** The demon seats of a deal from groups like the catalog's: exactly one when every picked role is seated; when one picked role is left over, a demon is seated unless the first exchange's draw leaves the demon in the last position. */
  lemma DealtDemonSeats(g: Grouped, p: Preset, d: SetupDraws, n: nat)
    requires CatalogGroups(g) && p.demon == 1
    requires n == |Picked(g, p, d)| || n + 1 == |Picked(g, p, d)|
    ensures |Shuffled(Picked(g, p, d), d.deal)| == |Picked(g, p, d)|
    ensures var seats := Dealt(n, Shuffled(Picked(g, p, d), d.deal));
      && (forall i, j | 0 <= i < j < n :: !(HasRoleType(seats[i], Demon) && HasRoleType(seats[j], Demon)))
      && (n == |Picked(g, p, d)| ==> exists i | 0 <= i < n :: HasRoleType(seats[i], Demon))
      && (n + 1 == |Picked(g, p, d)| ==>
            ((exists i | 0 <= i < n :: HasRoleType(seats[i], Demon)) <==> Pick(d.deal(n), n + 1) != n))
  {
    var s := Picked(g, p, d);
    var u := Shuffled(s, d.deal);
    DealtDemon(g, p, d);
    OneDemon(u, g.demon[0]);
    var seats := Dealt(n, u);
    assert forall i | 0 <= i < n :: HasRoleType(seats[i], Demon) <==> u[i].roleType == Demon;
    if n == |s| {
      var i :| 0 <= i < |u| && u[i] == g.demon[0];
      assert HasRoleType(seats[i], Demon);
    } else {
      PickedShape(g, p, d);
      ShuffledLast(s, d.deal);
      var k := Pick(d.deal(n), n + 1);
      assert u[n] == s[k];
      if k == n {
        assert u[n].roleType == Demon;
      } else {
        var i :| 0 <= i < |u| && u[i] == g.demon[0];
        assert i != n;
        assert HasRoleType(seats[i], Demon);
      }
    }
  }

  /** `initGame` seats the drawn number of players, each seat valid, bound to a role and otherwise blank; the game starts at day 1, night 1, with no winner and an empty log. */
  lemma SetupSeats(g: Grouped, lo: nat, hi: nat, d: SetupDraws)
    requires CatalogGroups(g) && 5 <= lo <= hi <= 15
    ensures var st := Dealing(g, lo, hi, d);
      && |st.seats| == Total(lo, hi, d) && ValidSeats(st.seats)
      && st.day == 1 && st.night == 1 && st.winner.None? && st.log == []
      && forall i | 0 <= i < |st.seats| ::
        && st.seats[i].role.Some?
        && (st.seats[i].isDrunk <==> HasRoleId(st.seats[i], Drunk))
        && st.seats[i] == BlankSeat(i).(role := st.seats[i].role, isDrunk := st.seats[i].isDrunk)
  {
    SetupFits(g, lo, hi, d);
    DealtSeats(Total(lo, hi, d), DealOrder(g, lo, hi, d));
  }

  /**
   * Below 15 players exactly one seat holds the demon. The 15-player preset
   * picks 16 roles and the deal seats the first 15, so the imp is left out
   * exactly when the deal's first exchange's draw leaves it in the last position.
   */
  lemma SetupDemon(g: Grouped, lo: nat, hi: nat, d: SetupDraws)
    requires CatalogGroups(g) && 5 <= lo <= hi <= 15
    ensures var seats := Dealing(g, lo, hi, d).seats;
      && (forall i, j | 0 <= i < j < |seats| :: !(HasRoleType(seats[i], Demon) && HasRoleType(seats[j], Demon)))
      && (|seats| < 15 ==> exists i | 0 <= i < |seats| :: HasRoleType(seats[i], Demon))
      && (|seats| == 15 ==>
            ((exists i | 0 <= i < |seats| :: HasRoleType(seats[i], Demon)) <==> Pick(d.deal(15), 16) != 15))
  {
    var n := Total(lo, hi, d);
    SetupFits(g, lo, hi, d);
    PresetFitsGroups(g, n, d);
    DealtDemonSeats(g, FindPreset(Presets, n).value, d, n);
  }

  /** A freshly dealt table of `lo` to `hi` valid seats, all alive, at day 1 and night 1, with no winner and an empty log. */
  predicate Fresh(st: State, lo: nat, hi: nat)
  {
    && lo <= |st.seats| <= hi && ValidSeats(st.seats)
    && (forall i | 0 <= i < |st.seats| :: !st.seats[i].isDead)
    && st.day == 1 && st.night == 1 && st.winner.None? && st.log == []
  }

  /** The deal produces a fresh table. */
  lemma DealingFresh(g: Grouped, lo: nat, hi: nat, d: SetupDraws)
    requires CatalogGroups(g) && 5 <= lo <= hi <= 15
    ensures Fresh(Dealing(g, lo, hi, d), lo, hi)
  {
    SetupSeats(g, lo, hi, d);
  }

  /** The table `initGame` deals from the catalog for the draws `d`. */
  function Table(lo: nat, hi: nat, d: SetupDraws): (st: State)
    requires 5 <= lo <= hi <= 15
    ensures st == Dealing(Catalog(), lo, hi, d) && Fresh(st, lo, hi)
  {
    DealingFresh(Catalog(), lo, hi, d);
    Dealing(Catalog(), lo, hi, d)
  }

  // ---- Seats and alignment ----

  /** The seat list every simulator keeps: seat `i` has id `i`, and every seat holds a role. */
  predicate ValidSeats(seats: seq<Seat>)
  {
    && (forall i | 0 <= i < |seats| :: seats[i].id == i && seats[i].role.Some?)
    && UniqueIds(seats)
  }

  /** Evil in the simulators: a minion or demon role, a conversion to evil, or an inherited demon. */
  predicate SimEvil(s: Seat)
  {
    HasRoleType(s, Minion) || HasRoleType(s, Demon) || s.isEvilConverted || s.isDemonSuccessor
  }

  /** Good in the simulators: a seat holding a role that is not evil. */
  predicate SimGood(s: Seat)
  {
    s.role.Some? && !SimEvil(s)
  }

  /** The living seats a simulator looks for. */
  datatype Filter =
    | Alive
    | AliveDemon
    | AliveGood
    | AlivePoisoner
    | AliveMonk
    | AliveOther(id: int)
    | Killable(demonId: int)

  predicate Matches(f: Filter, s: Seat)
  {
    !s.isDead &&
    match f
    case Alive => true
    case AliveDemon => HasRoleType(s, Demon) || s.isDemonSuccessor
    case AliveGood => SimGood(s)
    case AlivePoisoner => HasRoleId(s, Poisoner)
    case AliveMonk => HasRoleId(s, Monk)
    case AliveOther(id) => s.id != id
    case Killable(id) => s.id != id && !s.isProtected && !HasRoleId(s, Soldier)
  }

  /** The positions of the seats that match `f`, in table order. */
  function Where(seats: seq<Seat>, f: Filter): (r: seq<nat>)
    ensures |r| <= |seats|
    ensures forall k | 0 <= k < |r| :: r[k] < |seats| && Matches(f, seats[r[k]])
    ensures forall k | 0 <= k < |seats| && Matches(f, seats[k]) :: k in r
  {
    if seats == [] then []
    else
      var n := |seats| - 1;
      var rest := Where(seats[..n], f);
      if Matches(f, seats[n]) then rest + [n] else rest
  }

  /** The positions come in table order, so they are distinct. */
  lemma {:induction false} WhereOrdered(seats: seq<Seat>, f: Filter)
    ensures forall a, b | 0 <= a < b < |Where(seats, f)| :: Where(seats, f)[a] < Where(seats, f)[b]
  {
    if seats != [] {
      var n := |seats| - 1;
      var rest := Where(seats[..n], f);
      WhereOrdered(seats[..n], f);
      var r := Where(seats, f);
      assert r == if Matches(f, seats[n]) then rest + [n] else rest;
      forall a, b | 0 <= a < b < |r| ensures r[a] < r[b] {
        assert r[a] == rest[a] && rest[a] < n;
        if b < |rest| {
          assert r[b] == rest[b] && rest[a] < rest[b];
        }
      }
    }
  }

  /** A random seat among those matching `f`; `draw` is the random number. */
  function RandomAlive(seats: seq<Seat>, f: Filter, draw: nat): (r: Option<nat>)
    ensures r.Some? ==> r.value < |seats| && Matches(f, seats[r.value])
    ensures r.None? <==> forall k | 0 <= k < |seats| :: !Matches(f, seats[k])
  {
    var c := Where(seats, f);
    if |c| == 0 then None
    else
      assert c[Pick(draw, |c|)] in c;
      Some(c[Pick(draw, |c|)])
  }

  /** Every seat with its protection cleared. */
  function Unprotected(seats: seq<Seat>): (r: seq<Seat>)
    ensures |r| == |seats| && forall k | 0 <= k < |seats| :: r[k] == Unprotect(seats[k])
  {
    seq(|seats|, k requires 0 <= k < |seats| => Unprotect(seats[k]))
  }

  /** The number of `true` ballots among the first `n`. */
  function CountYes(ballot: nat -> bool, n: nat): (r: nat)
    ensures r <= n
  {
    if n == 0 then 0 else CountYes(ballot, n - 1) + (if ballot(n - 1) then 1 else 0)
  }

  // ---- The game context ----

  datatype Winner = Good | Evil | TimedOut(reason: string)

  datatype Stage = AtNight | AtDay

  /** One log line, as the event it reports. */
  datatype LogEvent =
    | InitLog(playerCount: nat, preset: Option<Preset>)
    | AssignmentLog(roleNames: seq<string>)
    | NightHeader(night: int)
    | PoisonLog(poisoner: int, target: int)
    | ProtectLog(monk: int, target: int)
    | FirstNightRest(demon: int)
    | KillLog(demon: int, target: int)
    | KillFailedLog(demon: int)
    | DayHeader(day: int)
    | SkipDayLog
    | NominationLog(proposer: int, nominee: int, votes: nat, alive: nat, needed: nat, executed: bool)
    | ExecutionLog(target: int)
    | NoExecutionLog
    | GameOverLog(winner: Winner, stage: Stage)
    | TimeoutLog

  datatype State = State(seats: seq<Seat>, day: int, night: int, winner: Option<Winner>, log: seq<LogEvent>)

  /**
   * What sets the simulators apart: whether they log, whether the demon
   * rests on the first night, whether protection is cleared at dawn, and
   * whether the day is a nomination with a vote or a random execution.
   */
  datatype Rules = Rules(logging: bool, suppressFirstNight: bool, clearProtection: bool, voting: bool)

  /** The random numbers of one night: one per poisoner, monk and demon, in table order. */
  datatype NightDraws = NightDraws(poison: nat -> nat, protect: nat -> nat, kill: nat -> nat)

  /** The random numbers of one day: nominator, nominee, one ballot per living seat, or the random execution. */
  datatype DayDraws = DayDraws(proposer: nat, nominee: nat, ballot: nat -> bool, execute: nat)

  datatype RoundDraws = RoundDraws(night: NightDraws, day: DayDraws)

  function Log(log: seq<LogEvent>, rules: Rules, e: LogEvent): seq<LogEvent>
  {
    if rules.logging then log + [e] else log
  }

  /** The win check: good when no demon lives, else evil when no good seat lives or at most two seats live. */
  function WinCheck(st: State, logging: bool, stage: Stage): (State, bool)
  {
    if |Where(st.seats, AliveDemon)| == 0 then
      (st.(winner := Some(Good), log := if logging then st.log + [GameOverLog(Good, stage)] else st.log), true)
    else if |Where(st.seats, AliveGood)| == 0 || |Where(st.seats, Alive)| <= 2 then
      (st.(winner := Some(Evil), log := if logging then st.log + [GameOverLog(Evil, stage)] else st.log), true)
    else
      (st, false)
  }

  datatype Act = PoisonAct | ProtectAct | KillAct

  /** One night action of the seat at position `actor`. */
  function ActStep(st: State, act: Act, actor: nat, draw: nat, rules: Rules): (r: State)
    requires actor < |st.seats|
    ensures |r.seats| == |st.seats| && r.night == st.night && r.day == st.day && r.winner == st.winner
    ensures st.log <= r.log && (!rules.logging ==> r.log == st.log)
  {
    var me := st.seats[actor].id;
    match act
    case PoisonAct =>
      (match RandomAlive(st.seats, AliveOther(me), draw)
       case None => st
       case Some(t) =>
         st.(seats := st.seats[t := st.seats[t].(isPoisoned := true)],
             log := Log(st.log, rules, PoisonLog(me, st.seats[t].id))))
    case ProtectAct =>
      (match RandomAlive(st.seats, AliveOther(me), draw)
       case None => st
       case Some(t) =>
         st.(seats := st.seats[t := st.seats[t].(isProtected := true, protectedBy := Some(me))],
             log := Log(st.log, rules, ProtectLog(me, st.seats[t].id))))
    case KillAct =>
      if rules.suppressFirstNight && st.night <= 1 then
        st.(log := Log(st.log, rules, FirstNightRest(me)))
      else
        (match RandomAlive(st.seats, Killable(me), draw)
         case None => st.(log := Log(st.log, rules, KillFailedLog(me)))
         case Some(t) =>
           st.(seats := st.seats[t := st.seats[t].(isDead := true)],
               log := Log(st.log, rules, KillLog(me, st.seats[t].id))))
  }

  /** The actions of the seats at `actors`, in order; the k-th uses `draws(k)`. */
  function ActFold(st: State, act: Act, actors: seq<nat>, draws: nat -> nat, rules: Rules): (r: State)
    requires forall k | 0 <= k < |actors| :: actors[k] < |st.seats|
    ensures |r.seats| == |st.seats| && r.night == st.night && r.day == st.day && r.winner == st.winner
  {
    if actors == [] then st
    else
      var n := |actors| - 1;
      var mid := ActFold(st, act, actors[..n], draws, rules);
      ActStep(mid, act, actors[n], draws(n), rules)
  }

  /** The fold over the first `k + 1` actors is one more action after the fold over the first `k`. */
  lemma ActFoldNext(st: State, act: Act, actors: seq<nat>, k: nat, draws: nat -> nat, rules: Rules)
    requires k < |actors| && forall j | 0 <= j < |actors| :: actors[j] < |st.seats|
    ensures ActFold(st, act, actors[..k + 1], draws, rules)
      == ActStep(ActFold(st, act, actors[..k], draws, rules), act, actors[k], draws(k), rules)
  {
    assert actors[..k + 1][..k] == actors[..k];
  }

  /**
   * One night: the header, the poisoners, the monks, the demons (each list
   * taken when its turn comes), clearing protection when the rules say so,
   * the night counter, then the win check.
   */
  function NightBody(st: State, rules: Rules, d: NightDraws): State
  {
    var s0 := st.(log := Log(st.log, rules, NightHeader(st.night)));
    var s3 := NightActions(s0, rules, d);
    var s4 := if rules.clearProtection then s3.(seats := Unprotected(s3.seats)) else s3;
    s4.(night := s4.night + 1)
  }

  /** The poisoners act, then the monks, then the demons; each list is taken when its turn comes. */
  function NightActions(s0: State, rules: Rules, d: NightDraws): (r: State)
    ensures |r.seats| == |s0.seats| && r.night == s0.night && r.day == s0.day && r.winner == s0.winner
  {
    var s1 := ActFold(s0, PoisonAct, Where(s0.seats, AlivePoisoner), d.poison, rules);
    var s2 := ActFold(s1, ProtectAct, Where(s1.seats, AliveMonk), d.protect, rules);
    ActFold(s2, KillAct, Where(s2.seats, AliveDemon), d.kill, rules)
  }

  function NightSpec(st: State, rules: Rules, d: NightDraws): (State, bool)
  {
    WinCheck(NightBody(st, rules, d), rules.logging, AtNight)
  }

  /** The nominator's and the nominee's positions among `alive`: the nominee is any other living seat. */
  function Nomination(alive: seq<nat>, d: DayDraws): (r: (nat, nat))
    requires |alive| >= 2
    ensures r.0 < |alive| && r.1 < |alive| && r.0 != r.1
  {
    var p := Pick(d.proposer, |alive|);
    var q := Pick(d.nominee, |alive| - 1);
    (p, if q < p then q else q + 1)
  }

  /**
   * A voting day: with at most one living seat the day is skipped; otherwise
   * a nominee other than the nominator is executed when the yes votes reach
   * a strict majority of the living.
   */
  function VoteDayBody(st: State, rules: Rules, d: DayDraws): State
  {
    var s0 := st.(log := Log(st.log, rules, DayHeader(st.day)));
    var alive := Where(s0.seats, Alive);
    if |alive| <= 1 then
      s0.(log := Log(s0.log, rules, SkipDayLog), day := s0.day + 1)
    else
      NominationVote(s0, alive, rules, d).(day := s0.day + 1)
  }

  /**
   * The nomination among the living seats at `alive`: the yes votes of the
   * living are counted and the nominee dies when they reach `needed`.
   */
  function NominationVote(s0: State, alive: seq<nat>, rules: Rules, d: DayDraws): (r: State)
    requires |alive| >= 2 && forall k | 0 <= k < |alive| :: alive[k] < |s0.seats|
    ensures |r.seats| == |s0.seats| && r.day == s0.day && r.night == s0.night && r.winner == s0.winner
    ensures s0.log <= r.log && (!rules.logging ==> r.log == s0.log)
  {
    var pn := Nomination(alive, d);
    var p := pn.0;
    var n := pn.1;
    var votes := CountYes(d.ballot, |alive|);
    var needed := |alive| / 2 + 1;
    var executed := votes >= needed;
    var target := alive[n];
    var seats := if executed then s0.seats[target := s0.seats[target].(isDead := true)] else s0.seats;
    var e := NominationLog(s0.seats[alive[p]].id, s0.seats[target].id, votes, |alive|, needed, executed);
    s0.(seats := seats, log := Log(s0.log, rules, e))
  }

  /** A day without a vote: one random living seat is executed, if any lives. */
  function RandomDayBody(st: State, rules: Rules, draw: nat): State
  {
    var s0 := st.(log := Log(st.log, rules, DayHeader(st.day)));
    var s1 := match RandomAlive(s0.seats, Alive, draw)
      case Some(t) =>
        s0.(seats := s0.seats[t := s0.seats[t].(isDead := true)], log := Log(s0.log, rules, ExecutionLog(s0.seats[t].id)))
      case None => s0.(log := Log(s0.log, rules, NoExecutionLog));
    s1.(day := s1.day + 1)
  }

  /** One day under the rules, before the win check. */
  function DayBody(st: State, rules: Rules, d: DayDraws): State
  {
    if rules.voting then VoteDayBody(st, rules, d) else RandomDayBody(st, rules, d.execute)
  }

  function DaySpec(st: State, rules: Rules, d: DayDraws): (State, bool)
  {
    WinCheck(DayBody(st, rules, d), rules.logging, AtDay)
  }

  /** Rounds `round`, `round + 1`, ... up to `maxRounds`, stopping at the first win; the flag says whether one came. */
  function Play(st: State, rules: Rules, draws: nat -> RoundDraws, round: nat, maxRounds: nat): (State, bool)
    decreases maxRounds - round
  {
    if round >= maxRounds then (st, false)
    else
      var ns := NightSpec(st, rules, draws(round).night);
      var s1 := ns.0;
      var e1 := ns.1;
      if e1 then (s1, true)
      else
        var ds := DaySpec(s1, rules, draws(round).day);
        var s2 := ds.0;
        var e2 := ds.1;
        if e2 then (s2, true) else Play(s2, rules, draws, round + 1, maxRounds)
  }

  /** The game context; the simulators' steps update its fields in place. */
  class Context {
    var seats: seq<Seat>
    var day: int
    var night: int
    var winner: Option<Winner>
    var log: seq<LogEvent>

    function Value(): State
      reads this
    {
      State(seats, day, night, winner, log)
    }

    constructor (st: State)
      ensures Value() == st
    {
      seats := st.seats;
      day := st.day;
      night := st.night;
      winner := st.winner;
      log := st.log;
    }

    method Push(e: LogEvent, rules: Rules)
      modifies this
      ensures Value() == old(Value()).(log := Log(old(log), rules, e))
    {
      if rules.logging {
        log := log + [e];
      }
    }

    method CheckGameOver(logging: bool, stage: Stage) returns (ended: bool)
      modifies this
      ensures (Value(), ended) == WinCheck(old(Value()), logging, stage)
    {
      var demons := Where(seats, AliveDemon);
      var goods := Where(seats, AliveGood);
      if |demons| == 0 {
        winner := Some(Good);
        if logging {
          log := log + [GameOverLog(Good, stage)];
        }
        return true;
      }
      if |goods| == 0 || |Where(seats, Alive)| <= 2 {
        winner := Some(Evil);
        if logging {
          log := log + [GameOverLog(Evil, stage)];
        }
        return true;
      }
      return false;
    }

    method Act(act: Act, actor: nat, draw: nat, rules: Rules)
      requires actor < |seats|
      modifies this
      ensures Value() == ActStep(old(Value()), act, actor, draw, rules)
    {
      var me := seats[actor].id;
      match act {
        case PoisonAct =>
          var t := RandomAlive(seats, AliveOther(me), draw);
          if t.Some? {
            seats := seats[t.value := seats[t.value].(isPoisoned := true)];
            Push(PoisonLog(me, seats[t.value].id), rules);
          }
        case ProtectAct =>
          var t := RandomAlive(seats, AliveOther(me), draw);
          if t.Some? {
            seats := seats[t.value := seats[t.value].(isProtected := true, protectedBy := Some(me))];
            Push(ProtectLog(me, seats[t.value].id), rules);
          }
        case KillAct =>
          if rules.suppressFirstNight && night <= 1 {
            Push(FirstNightRest(me), rules);
          } else {
            var t := RandomAlive(seats, Killable(me), draw);
            if t.Some? {
              seats := seats[t.value := seats[t.value].(isDead := true)];
              Push(KillLog(me, seats[t.value].id), rules);
            } else {
              Push(KillFailedLog(me), rules);
            }
          }
      }
    }

    /** Each seat of `actors` acts in turn (the source's `forEach` over the actor list). */
    method RunActors(act: Act, actors: seq<nat>, draws: nat -> nat, rules: Rules)
      requires forall k | 0 <= k < |actors| :: actors[k] < |seats|
      modifies this
      ensures Value() == ActFold(old(Value()), act, actors, draws, rules)
    {
      ghost var st := Value();
      var k := 0;
      while k < |actors|
        invariant 0 <= k <= |actors| && |seats| == |st.seats|
        invariant Value() == ActFold(st, act, actors[..k], draws, rules)
      {
        ActFoldNext(st, act, actors, k, draws, rules);
        Act(act, actors[k], draws(k), rules);
        k := k + 1;
      }
      assert actors[..k] == actors;
    }

    /** Clears every seat's protection, one seat at a time. */
    method ClearProtection()
      modifies this
      ensures Value() == old(Value()).(seats := Unprotected(old(seats)))
    {
      var k := 0;
      while k < |seats|
        invariant 0 <= k <= |seats| && |seats| == |old(seats)|
        invariant forall j | 0 <= j < k :: seats[j] == Unprotect(old(seats[j]))
        invariant forall j | k <= j < |seats| :: seats[j] == old(seats[j])
        invariant day == old(day) && night == old(night) && winner == old(winner) && log == old(log)
      {
        seats := seats[k := Unprotect(seats[k])];
        k := k + 1;
      }
    }

    method SimulateNight(rules: Rules, d: NightDraws) returns (ended: bool)
      modifies this
      ensures (Value(), ended) == NightSpec(old(Value()), rules, d)
    {
      ghost var st := Value();
      Push(NightHeader(night), rules);
      ghost var s0 := Value();
      assert s0 == st.(log := Log(st.log, rules, NightHeader(st.night)));
      NightActs(rules, d);
      ghost var s3 := Value();
      assert s3 == NightActions(s0, rules, d);
      if rules.clearProtection {
        ClearProtection();
      }
      night := night + 1;
      assert Value() == NightBody(st, rules, d);
      ended := CheckGameOver(rules.logging, AtNight);
    }

    /** The night actions: the poisoners, then the monks, then the demons. */
    method NightActs(rules: Rules, d: NightDraws)
      modifies this
      ensures Value() == NightActions(old(Value()), rules, d)
    {
      ghost var s0 := Value();
      RunActors(PoisonAct, Where(seats, AlivePoisoner), d.poison, rules);
      ghost var s1 := Value();
      assert s1 == ActFold(s0, PoisonAct, Where(s0.seats, AlivePoisoner), d.poison, rules);
      RunActors(ProtectAct, Where(seats, AliveMonk), d.protect, rules);
      ghost var s2 := Value();
      assert s2 == ActFold(s1, ProtectAct, Where(s1.seats, AliveMonk), d.protect, rules);
      RunActors(KillAct, Where(seats, AliveDemon), d.kill, rules);
    }

    /** Counts the yes votes of the first `n` living seats, one ballot at a time. */
    static method CountVotes(ballot: nat -> bool, n: nat) returns (votes: nat)
      ensures votes == CountYes(ballot, n)
    {
      votes := 0;
      var k := 0;
      while k < n
        invariant 0 <= k <= n
        invariant votes == CountYes(ballot, k)
      {
        if ballot(k) {
          votes := votes + 1;
        }
        k := k + 1;
      }
    }

    /** The nomination and the vote of a day with at least two living seats at `alive`. */
    method Nominate(alive: seq<nat>, rules: Rules, d: DayDraws)
      requires |alive| >= 2 && forall k | 0 <= k < |alive| :: alive[k] < |seats|
      modifies this
      ensures Value() == NominationVote(old(Value()), alive, rules, d)
    {
      var pn := Nomination(alive, d);
      var p := pn.0;
      var n := pn.1;
      var votes := CountVotes(d.ballot, |alive|);
      var needed := |alive| / 2 + 1;
      var executed := votes >= needed;
      var target := alive[n];
      var e := NominationLog(seats[alive[p]].id, seats[target].id, votes, |alive|, needed, executed);
      if executed {
        seats := seats[target := seats[target].(isDead := true)];
      }
      Push(e, rules);
    }

    method SimulateVoteDay(rules: Rules, d: DayDraws) returns (ended: bool)
      modifies this
      ensures (Value(), ended) == WinCheck(VoteDayBody(old(Value()), rules, d), rules.logging, AtDay)
    {
      Push(DayHeader(day), rules);
      var alive := Where(seats, Alive);
      if |alive| <= 1 {
        Push(SkipDayLog, rules);
      } else {
        Nominate(alive, rules, d);
      }
      day := day + 1;
      ended := CheckGameOver(rules.logging, AtDay);
    }

    method SimulateRandomDay(rules: Rules, draw: nat) returns (ended: bool)
      modifies this
      ensures (Value(), ended) == WinCheck(RandomDayBody(old(Value()), rules, draw), rules.logging, AtDay)
    {
      ghost var st := Value();
      Push(DayHeader(day), rules);
      ghost var s0 := Value();
      assert s0 == st.(log := Log(st.log, rules, DayHeader(st.day)));
      var t := RandomAlive(seats, Alive, draw);
      if t.Some? {
        seats := seats[t.value := seats[t.value].(isDead := true)];
        Push(ExecutionLog(seats[t.value].id), rules);
        assert seats[t.value].id == s0.seats[t.value].id;
      } else {
        Push(NoExecutionLog, rules);
      }
      day := day + 1;
      assert Value() == RandomDayBody(st, rules, draw);
      ended := CheckGameOver(rules.logging, AtDay);
    }

    method SimulateDay(rules: Rules, d: DayDraws) returns (ended: bool)
      modifies this
      ensures (Value(), ended) == DaySpec(old(Value()), rules, d)
    {
      if rules.voting {
        ended := SimulateVoteDay(rules, d);
      } else {
        ended := SimulateRandomDay(rules, d.execute);
      }
    }

    /**
     * The round loop of `simulateGame`: a night, then (unless the night
     * ended the game) a day, until a win or `maxRounds` rounds.
     */
    method PlayRounds(rules: Rules, draws: nat -> RoundDraws, maxRounds: nat) returns (ended: bool)
      modifies this
      ensures (Value(), ended) == Play(old(Value()), rules, draws, 0, maxRounds)
    {
      var rounds := 0;
      ended := false;
      while !ended && rounds < maxRounds
        invariant rounds <= maxRounds
        invariant !ended ==> Play(Value(), rules, draws, rounds, maxRounds) == Play(old(Value()), rules, draws, 0, maxRounds)
        invariant ended ==> (Value(), true) == Play(old(Value()), rules, draws, 0, maxRounds)
        decreases maxRounds - rounds
      {
        ended := SimulateNight(rules, draws(rounds).night);
        if ended {
          break;
        }
        ended := SimulateDay(rules, draws(rounds).day);
        rounds := rounds + 1;
      }
    }
  }

  /**
   * `initGame`: draws the player count in `lo..hi`, looks up its preset,
   * takes each type's roles from a shuffled copy of its group in `g`,
   * shuffles the picks and binds seat `i` to the `i`-th of them.
   */
  method InitGame(g: Grouped, lo: nat, hi: nat, d: SetupDraws) returns (ctx: Context, preset: Preset)
    requires CatalogGroups(g) && 5 <= lo <= hi <= 15
    ensures fresh(ctx) && ctx.Value() == Dealing(g, lo, hi, d)
    ensures preset == Presets[Total(lo, hi, d) - 5]
  {
    var total, dealt;
    total, preset, dealt := DrawRoles(g, lo, hi, d);
    SetupFits(g, lo, hi, d);
    var seats := InitializeSeats(total);
    seats := Deal(seats, dealt);
    ctx := new Context(State(seats, 1, 1, None, []));
  }

  /** The drawn player count, its preset, and the roles in the order they are dealt. */
  method DrawRoles(g: Grouped, lo: nat, hi: nat, d: SetupDraws) returns (total: nat, preset: Preset, dealt: seq<Role>)
    requires 5 <= lo <= hi <= 15
    ensures total == Total(lo, hi, d) && preset == Presets[total - 5]
    ensures dealt == DealOrder(g, lo, hi, d)
  {
    total := lo + Pick(d.total, hi - lo + 1);
    PresetFor(total);
    preset := FindPreset(Presets, total).value;
    var picked := PickRoles(g, preset, d);
    dealt := Shuffle(picked, d.deal);
  }

  /** Each type's share of the preset, taken from a shuffled copy of its group. */
  method PickRoles(g: Grouped, p: Preset, d: SetupDraws) returns (picked: seq<Role>)
    ensures picked == Picked(g, p, d)
  {
    var townsfolk := Shuffle(g.townsfolk, d.townsfolk);
    var outsider := Shuffle(g.outsider, d.outsider);
    var minion := Shuffle(g.minion, d.minion);
    var demon := Shuffle(g.demon, d.demon);
    picked := Take(townsfolk, p.townsfolk) + Take(outsider, p.outsider)
      + Take(minion, p.minion) + Take(demon, p.demon);
  }

  /** Binds each blank seat `i` to the `i`-th dealt role, marking the drunk (the `forEach` of `initGame`). */
  method Deal(blank: seq<Seat>, dealt: seq<Role>) returns (seats: seq<Seat>)
    requires |blank| <= |dealt| && forall i | 0 <= i < |blank| :: blank[i] == BlankSeat(i)
    ensures seats == Dealt(|blank|, dealt)
  {
    seats := blank;
    var i := 0;
    while i < |seats|
      invariant 0 <= i <= |seats| == |blank|
      invariant forall k | 0 <= k < i :: seats[k] == Bind(BlankSeat(k), dealt[k])
      invariant forall k | i <= k < |seats| :: seats[k] == BlankSeat(k)
    {
      seats := seats[i := seats[i].(role := Some(dealt[i]))];
      if dealt[i].id == Drunk {
        seats := seats[i := seats[i].(isDrunk := true)];
      }
      i := i + 1;
    }
  }
}
