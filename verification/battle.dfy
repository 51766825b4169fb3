/** One press of the attack button of game_cog.py's BattleView: the player's
    damage, the wear on the stone sword, the poison tick and status expiry,
    and then either the win with its rewards and drops or the monster's
    counterattack with the HP floor. Randomness arrives as parameters:
    `roll` is `random.randint(5, 15)` and each of `dropRolls` is a drop's
    `random.random()` scaled to a whole percentage in [0, 100). */
module Battle {
  import opened Wrappers
  import opened Items
  import opened Inventory
  import opened Players
  import opened World

  /** A MONSTERS entry; each drop is an item name with its chance in percent,
      in dictionary order. */
  datatype Monster = Monster(hp: int, attack: int, gold: int, exp: int, drops: seq<(string, int)>)

  const Slime := "슬라임"
  const Goblin := "고블린"
  const Orc := "오크"
  const Wolf := "늑대"
  const Spider := "거미"

  const Monsters: map<string, Monster> := map[
    Slime := Monster(20, 5, 2, 3, [("기초 회복 물약", 30), ("생고기", 50)]),
    Goblin := Monster(35, 8, 5, 7, [("기초 회복 물약", 20), ("독 물약", 10)]),
    Orc := Monster(50, 12, 10, 12, [("공격력 강화 물약", 10), ("생고기", 70)]),
    Wolf := Monster(25, 7, 3, 5, [("생고기", 80)]),
    Spider := Monster(15, 4, 1, 2, [("독 물약", 5)])
  ]

  const WeaponName := "돌 칼"
  const BuffBonus := 10
  /** The poison tick is this fixed amount; the row's `status_effect_value` is
      not consulted. */
  const PoisonDamage := 5
  const Poison := "poison"

  /** Every monster the seeded map spawns has an entry. */
  lemma SeedSpawnsAreKnownMonsters()
    ensures forall id, k :: id in SeedWorld().spawns && 0 <= k < |SeedWorld().spawns[id]| ==>
      SeedWorld().spawns[id][k] in Monsters
  {
  }

  /** A buff was applied (0 means never) and has not run out. */
  predicate BuffActive(p: Player, now: int) {
    p.attackBuffUntil != 0 && now < p.attackBuffUntil
  }

  predicate Poisoned(p: Player, now: int) {
    p.statusEffect == Some(Poison) && now < p.statusEffectEndTime
  }

  /** A status effect is set (non-NULL, non-empty) and its end time has passed. */
  predicate StatusExpired(p: Player, now: int) {
    p.statusEffect.Some? && p.statusEffect.value != "" && now >= p.statusEffectEndTime
  }

  /** The sword counts while a row of it has a positive quantity. */
  predicate Armed(s: Slots, c: Catalog) {
    HasItem(s, c, WeaponName)
  }

  /** What the sword adds (game_cog.py:86-89): its effect value when the item
      found by name is an attack boost, nothing otherwise; None when that value
      is NULL, where the addition raises. */
  function WeaponBonus(c: Catalog): Option<int> {
    match ByName(c, WeaponName)
    case Some(w) => if w.effectType == Some(AttackBoost) then w.effectValue else Some(0)
    case None => Some(0)
  }

  /** The rows after the sword's one use this turn (game_cog.py:86, 91): one
      `_use_tool` when the sword is held, no change otherwise. */
  function Wielded(s: Slots, c: Catalog): Slots {
    if Armed(s, c) then UseTool(s, c, WeaponName).slots else s
  }

  /** The player's damage: the roll, the buff bonus, the sword bonus. */
  function PlayerDamage(p: Player, s: Slots, c: Catalog, roll: int, now: int): (d: int)
    requires !(Armed(s, c) && WeaponBonus(c).None?)
    ensures (Armed(s, c) ==> WeaponBonus(c).value >= 0) ==> roll <= d
    ensures d <= roll + BuffBonus + (if Armed(s, c) then WeaponBonus(c).value else 0)
  {
    roll + (if BuffActive(p, now) then BuffBonus else 0) + (if Armed(s, c) then WeaponBonus(c).value else 0)
  }

  /** The status phase, both decided on the row read at the start of the turn:
      an active poison costs 5 HP; an expired effect is cleared. */
  function AfterStatus(p: Player, now: int): (q: Player)
    ensures q.hp == (if Poisoned(p, now) then p.hp - PoisonDamage else p.hp)
    ensures StatusExpired(p, now) ==>
      q.statusEffect.None? && q.statusEffectEndTime == 0 && q.statusEffectValue == 0
    ensures !StatusExpired(p, now) ==>
      q.statusEffect == p.statusEffect && q.statusEffectEndTime == p.statusEffectEndTime
      && q.statusEffectValue == p.statusEffectValue
    ensures q.(hp := p.hp, statusEffect := p.statusEffect, statusEffectEndTime := p.statusEffectEndTime,
               statusEffectValue := p.statusEffectValue) == p
  {
    var hp := if Poisoned(p, now) then p.hp - PoisonDamage else p.hp;
    if StatusExpired(p, now) then
      p.(hp := hp, statusEffect := None, statusEffectEndTime := 0, statusEffectValue := 0)
    else p.(hp := hp)
  }

  // ---------------------------------------------------------------------------
  // Drops

  /** A drop is granted when its roll falls below its chance. */
  predicate Dropped(drops: seq<(string, int)>, rolls: seq<int>, i: int)
    requires |rolls| == |drops| && 0 <= i < |drops|
  {
    rolls[i] < drops[i].1
  }

  /** Each drop in order, granted one at a time when its roll hits. */
  function GrantDrops(s: Slots, c: Catalog, drops: seq<(string, int)>, rolls: seq<int>): (r: Slots)
    requires |rolls| == |drops|
    ensures s.Keys <= r.Keys
    decreases |drops|
  {
    if |drops| == 0 then s
    else
      var n := |drops| - 1;
      var front := GrantDrops(s, c, drops[..n], rolls[..n]);
      if Dropped(drops, rolls, n) then AddItem(front, c, drops[n].0, 1).slots else front
  }

  /** Drops only add: no row is lost, every drop that hit and that the catalog
      knows has a row, and when no drop hits nothing changes. */
  lemma {:induction false} GrantDropsGrants(s: Slots, c: Catalog, drops: seq<(string, int)>, rolls: seq<int>)
    requires |rolls| == |drops|
    ensures s.Keys <= GrantDrops(s, c, drops, rolls).Keys
    ensures forall i :: 0 <= i < |drops| && Dropped(drops, rolls, i) && ByName(c, drops[i].0).Some? ==>
      ByName(c, drops[i].0).value.id in GrantDrops(s, c, drops, rolls)
    ensures (forall i :: 0 <= i < |drops| ==> !Dropped(drops, rolls, i)) ==> GrantDrops(s, c, drops, rolls) == s
    decreases |drops|
  {
    if |drops| > 0 {
      var n := |drops| - 1;
      GrantDropsGrants(s, c, drops[..n], rolls[..n]);
      assert forall i :: 0 <= i < n ==> drops[..n][i] == drops[i] && rolls[..n][i] == rolls[i];
      if forall i :: 0 <= i < |drops| ==> !Dropped(drops, rolls, i) {
        forall i | 0 <= i < n ensures !Dropped(drops[..n], rolls[..n], i) {
          assert !Dropped(drops, rolls, i);
        }
      }
    }
  }

  /** A row of an item no drop names is left exactly as it was. */
  lemma {:induction false} GrantDropsKeepsOthers(s: Slots, c: Catalog, drops: seq<(string, int)>, rolls: seq<int>, id: int)
    requires |rolls| == |drops| && id in s
    requires forall i :: 0 <= i < |drops| && ByName(c, drops[i].0).Some? ==> ByName(c, drops[i].0).value.id != id
    ensures id in GrantDrops(s, c, drops, rolls) && GrantDrops(s, c, drops, rolls)[id] == s[id]
    decreases |drops|
  {
    if |drops| > 0 {
      var n := |drops| - 1;
      assert forall i :: 0 <= i < n ==> drops[..n][i] == drops[i];
      GrantDropsKeepsOthers(s, c, drops[..n], rolls[..n], id);
    }
  }

  // ---------------------------------------------------------------------------
  // The turn

  datatype TurnOutcome = WeaponFault | Continues | Won | Lost

  /** The outcome, the player's row, their inventory rows and the monster's HP after the turn. */
  datatype TurnResult = TurnResult(outcome: TurnOutcome, player: Player, slots: Slots, monsterHp: int)

  /** One attack on the monster `m` (its current HP in `m.hp`) whose template
      drops are `drops`. A NULL sword bonus raises before anything changes.
      Otherwise the monster loses the player's damage; the status phase
      applies; a monster at 0 HP or below pays its gold and experience and
      rolls its drops, and the battle is won. Otherwise it strikes back, and a
      player left at 0 HP or below is set to 1 HP and loses. */
  function Turn(p: Player, s: Slots, c: Catalog, m: Monster, drops: seq<(string, int)>,
                roll: int, now: int, dropRolls: seq<int>): (r: TurnResult)
    requires |dropRolls| == |drops|
    ensures r.outcome.WeaponFault? <==> Armed(s, c) && WeaponBonus(c).None?
    ensures r.outcome.WeaponFault? ==> r.player == p && r.slots == s && r.monsterHp == m.hp
    ensures !r.outcome.WeaponFault? ==> r.monsterHp == m.hp - PlayerDamage(p, s, c, roll, now)
    ensures r.outcome.Won? <==> !r.outcome.WeaponFault? && r.monsterHp <= 0
    ensures r.outcome.Won? ==>
      && r.player == AfterStatus(p, now).(gold := p.gold + m.gold, exp := p.exp + m.exp)
      && r.slots == GrantDrops(Wielded(s, c), c, drops, dropRolls)
    ensures r.outcome.Continues? || r.outcome.Lost? ==>
      && r.player == AfterStatus(p, now).(hp := r.player.hp)
      && r.slots == Wielded(s, c)
      && r.player.hp >= 1
      && (r.outcome.Lost? <==> AfterStatus(p, now).hp - m.attack <= 0)
      && (r.outcome.Lost? ==> r.player.hp == 1)
      && (r.outcome.Continues? ==> r.player.hp == AfterStatus(p, now).hp - m.attack)
  {
    if Armed(s, c) && WeaponBonus(c).None? then TurnResult(WeaponFault, p, s, m.hp)
    else Settle(AfterStatus(p, now), Wielded(s, c), c, m.(hp := m.hp - PlayerDamage(p, s, c, roll, now)), drops, dropRolls)
  }

  /** The rest of a turn once the blow has landed: `p` has had its status
      applied, `s` its sword worn and `m` its HP lowered. */
  function Settle(p: Player, s: Slots, c: Catalog, m: Monster, drops: seq<(string, int)>,
                  dropRolls: seq<int>): (r: TurnResult)
    requires |dropRolls| == |drops|
    ensures r.outcome != WeaponFault && r.monsterHp == m.hp
    ensures r.outcome.Won? <==> m.hp <= 0
    ensures r.outcome.Lost? <==> m.hp > 0 && p.hp - m.attack <= 0
    ensures r.outcome.Won? ==> r.player.gold == p.gold + m.gold && r.player.exp == p.exp + m.exp && s.Keys <= r.slots.Keys
    ensures !r.outcome.Won? ==> r.slots == s && r.player.hp >= 1 && r.player.gold == p.gold && r.player.exp == p.exp
    ensures r.outcome.Won? ==>
      r.player == p.(gold := p.gold + m.gold, exp := p.exp + m.exp) && r.slots == GrantDrops(s, c, drops, dropRolls)
    ensures r.outcome.Lost? ==> r.player == p.(hp := 1)
    ensures r.outcome.Continues? ==> r.player == p.(hp := p.hp - m.attack)
  {
    if m.hp <= 0 then
      TurnResult(Won, p.(gold := p.gold + m.gold, exp := p.exp + m.exp), GrantDrops(s, c, drops, dropRolls), m.hp)
    else
      var hp := p.hp - m.attack;
      if hp <= 0 then TurnResult(Lost, p.(hp := 1), s, m.hp)
      else TurnResult(Continues, p.(hp := hp), s, m.hp)
  }

  /** Turn on a press whose sword bonus is NULL. */
  lemma TurnFaults(p: Player, s: Slots, c: Catalog, m: Monster, drops: seq<(string, int)>,
                   roll: int, now: int, dropRolls: seq<int>)
    requires |dropRolls| == |drops|
    requires Armed(s, c) && WeaponBonus(c).None?
    ensures Turn(p, s, c, m, drops, roll, now, dropRolls) == TurnResult(WeaponFault, p, s, m.hp)
  {
  }

  /** Turn on a press whose blow lands. */
  lemma TurnLands(p: Player, s: Slots, c: Catalog, m: Monster, drops: seq<(string, int)>,
                  roll: int, now: int, dropRolls: seq<int>)
    requires |dropRolls| == |drops|
    requires !(Armed(s, c) && WeaponBonus(c).None?)
    ensures Turn(p, s, c, m, drops, roll, now, dropRolls)
      == Settle(AfterStatus(p, now), Wielded(s, c), c, m.(hp := m.hp - PlayerDamage(p, s, c, roll, now)), drops, dropRolls)
  {
  }

  /** With the roll in [5, 15] as `random.randint(5, 15)` gives it and a sword
      bonus that is not negative (the seeded sword's is 2), a landed blow takes
      at least 5 and at most 25 plus the bonus off the monster. */
  lemma LandedBlowRange(p: Player, s: Slots, c: Catalog, m: Monster, drops: seq<(string, int)>,
                        roll: int, now: int, dropRolls: seq<int>)
    requires |dropRolls| == |drops| && 5 <= roll <= 15
    requires !(Armed(s, c) && WeaponBonus(c).None?)
    requires Armed(s, c) ==> WeaponBonus(c).value >= 0
    ensures var bonus := if Armed(s, c) then WeaponBonus(c).value else 0;
      m.hp - 25 - bonus <= Turn(p, s, c, m, drops, roll, now, dropRolls).monsterHp <= m.hp - 5
  {
  }

  /** Outside a win the player always ends the turn with at least 1 HP, and
      never gains gold or experience. */
  lemma HpFloorOutsideWins(p: Player, s: Slots, c: Catalog, m: Monster, drops: seq<(string, int)>,
                           roll: int, now: int, dropRolls: seq<int>)
    requires |dropRolls| == |drops|
    requires !Turn(p, s, c, m, drops, roll, now, dropRolls).outcome.Won?
    requires !Turn(p, s, c, m, drops, roll, now, dropRolls).outcome.WeaponFault?
    ensures var r := Turn(p, s, c, m, drops, roll, now, dropRolls);
      r.player.hp >= 1 && r.player.gold == p.gold && r.player.exp == p.exp
  {
  }

  /** The floor is applied only after a counterattack: a poisoned player at
      3 HP who kills a spider wins the turn at -2 HP. */
  lemma PoisonedWinSkipsFloor()
    ensures var p := Player(1, 3, 0, 0, 5, Novice, 0, 0, Some(Poison), 100, 0);
      var r := Turn(p, map[], Catalog(map[], []), Monsters[Spider], Monsters[Spider].drops, 15, 50, [99]);
      r.outcome.Won? && r.player.hp == -2 && r.player.gold == 1 && r.player.exp == 2
  {
  }

  /** A slime at full HP falls to two unarmed, unbuffed blows of 15: the first
      leaves it at 5 and costs the player 5 HP, the second wins 2 gold and
      3 experience. */
  lemma SlimeFight()
    ensures var p := Player(1, 100, 0, 0, 2, Novice, 0, 0, None, 0, 0);
      var c := Catalog(map[], []);
      var first := Turn(p, map[], c, Monsters[Slime], Monsters[Slime].drops, 15, 0, [99, 99]);
      var second := Turn(first.player, first.slots, c, Monsters[Slime].(hp := first.monsterHp),
                         Monsters[Slime].drops, 15, 0, [99, 99]);
      && first.outcome == Continues && first.monsterHp == 5 && first.player.hp == 95
      && second.outcome == Won && second.player.gold == 2 && second.player.exp == 3
      && second.player.hp == 95 && second.slots == map[]
  {
    var p := Player(1, 100, 0, 0, 2, Novice, 0, 0, None, 0, 0);
    var c := Catalog(map[], []);
    var slime := Monsters[Slime];
    assert !Armed(map[], c);
    assert PlayerDamage(p, map[], c, 15, 0) == 15;
    TurnLands(p, map[], c, slime, slime.drops, 15, 0, [99, 99]);
    var first := Turn(p, map[], c, slime, slime.drops, 15, 0, [99, 99]);
    assert first == TurnResult(Continues, p.(hp := 95), map[], 5);
    assert PlayerDamage(first.player, map[], c, 15, 0) == 15;
    TurnLands(first.player, map[], c, slime.(hp := 5), slime.drops, 15, 0, [99, 99]);
    var second := Turn(first.player, first.slots, c, slime.(hp := first.monsterHp), slime.drops, 15, 0, [99, 99]);
    assert second.outcome == Won;
    GrantDropsGrants(map[], c, slime.drops, [99, 99]);
  }

  /** A player at 3 HP whose blow leaves an orc standing is struck for 12, set
      to 1 HP and loses. */
  lemma OrcDefeat()
    ensures var p := Player(1, 3, 0, 0, 3, Novice, 0, 0, None, 0, 0);
      var r := Turn(p, map[], Catalog(map[], []), Monsters[Orc], Monsters[Orc].drops, 5, 0, [99, 99]);
      r.outcome == Lost && r.player.hp == 1 && r.monsterHp == 45
  {
  }

  // ---------------------------------------------------------------------------
  // The turn as written, where a drop cannot be written

  /** Granting the item named `name` writes a row: the catalog knows it and the
      player either lacks it or may stack it. */
  predicate GrantWrites(s: Slots, c: Catalog, name: string) {
    ByName(c, name).Some? && (ByName(c, name).value.id !in s || ByName(c, name).value.stackable)
  }

  /** As written, a win's gold update is still uncommitted on the attack's own
      connection when a drop is granted through a second connection. A grant
      that would write a row raises: an update cannot take the write lock, and
      an insert first reads the missing `max_durability` (see
      `AddItemAsWritten`). The attack's updates are then rolled back, and only
      the sword's wear, committed earlier on its own connection, remains. The
      view stays open. */
  datatype WrittenTurn = Completed(result: TurnResult) | DropRaised(slots: Slots, monsterHp: int)

  function TurnAsWritten(p: Player, s: Slots, c: Catalog, m: Monster, drops: seq<(string, int)>,
                         roll: int, now: int, dropRolls: seq<int>): (r: WrittenTurn)
    requires |dropRolls| == |drops|
    ensures !Turn(p, s, c, m, drops, roll, now, dropRolls).outcome.Won? ==> r == Completed(Turn(p, s, c, m, drops, roll, now, dropRolls))
    ensures r.Completed? ==> r.result == Turn(p, s, c, m, drops, roll, now, dropRolls)
    ensures r.DropRaised? ==> r.slots == Wielded(s, c) && r.monsterHp <= 0
    ensures r.DropRaised? <==>
      && Turn(p, s, c, m, drops, roll, now, dropRolls).outcome.Won?
      && exists i :: 0 <= i < |drops| && Dropped(drops, dropRolls, i) && GrantWrites(Wielded(s, c), c, drops[i].0)
  {
    var r := Turn(p, s, c, m, drops, roll, now, dropRolls);
    if r.outcome.Won? && exists i :: 0 <= i < |drops| && Dropped(drops, dropRolls, i) && GrantWrites(Wielded(s, c), c, drops[i].0) then
      DropRaised(Wielded(s, c), r.monsterHp)
    else Completed(r)
  }

  /** As written, a slime killed by a player who already holds one potion, with
      the potion drop rolled, leaves the player's gold, experience and rows as
      they were, where the intended turn pays out and stacks a second potion. */
  lemma SlimeDropLocksAsWritten()
    ensures var p := Player(1, 100, 0, 0, 2, Novice, 0, 0, None, 0, 0);
      var potion := Item(1, "기초 회복 물약", "", Consumable, Some(HpRecovery), Some(2), true, 99, None, None);
      var c := Catalog(map[1 := potion], [1]);
      var s := map[1 := Slot(1, None)];
      var slime := Monsters[Slime].(hp := 5);
      && TurnAsWritten(p, s, c, slime, Monsters[Slime].drops, 15, 0, [10, 99]) == DropRaised(s, -10)
      && Turn(p, s, c, slime, Monsters[Slime].drops, 15, 0, [10, 99]).player.gold == 2
      && Turn(p, s, c, slime, Monsters[Slime].drops, 15, 0, [10, 99]).slots == map[1 := Slot(2, None)]
  {
    var potion := Item(1, "기초 회복 물약", "", Consumable, Some(HpRecovery), Some(2), true, 99, None, None);
    var c := Catalog(map[1 := potion], [1]);
    var s := map[1 := Slot(1, None)];
    FindFirst(c, "기초 회복 물약", false, 0);
    FindNoneIff(c, WeaponName, true);
    assert !Armed(s, c);
    assert Dropped(Monsters[Slime].drops, [10, 99], 0);
    assert GrantWrites(Wielded(s, c), c, Monsters[Slime].drops[0].0);
    var drops := Monsters[Slime].drops;
    assert drops[..1] == [("기초 회복 물약", 30)] && [10, 99][..1] == [10];
    assert GrantDrops(s, c, drops[..1], [10]) == map[1 := Slot(2, None)] by {
      assert [("기초 회복 물약", 30)][..0] == [] && [10][..0] == [];
      assert AddItem(s, c, "기초 회복 물약", 1).slots == map[1 := Slot(2, None)];
    }
    assert GrantDrops(s, c, drops, [10, 99]) == map[1 := Slot(2, None)];
  }

  /** Where no drop that hits would write a row, the turn as written is the
      intended turn. */
  lemma TurnAsWrittenAgreesWithoutWrites(p: Player, s: Slots, c: Catalog, m: Monster, drops: seq<(string, int)>,
                                         roll: int, now: int, dropRolls: seq<int>)
    requires |dropRolls| == |drops|
    requires forall i :: 0 <= i < |drops| && Dropped(drops, dropRolls, i) ==> !GrantWrites(Wielded(s, c), c, drops[i].0)
    ensures TurnAsWritten(p, s, c, m, drops, roll, now, dropRolls) == Completed(Turn(p, s, c, m, drops, roll, now, dropRolls))
  {
  }
}
