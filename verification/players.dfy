/** A row of the players table and the commands of game_cog.py that change it
    outside battle: using a consumable and choosing a job. */
module Players {
  import opened Wrappers
  import opened Items
  import opened Inventory

  /** The columns the game commands read or write. Timestamps are whole
      seconds; `attackBuffUntil` 0 means no buff was ever applied. */
  datatype Player = Player(
    level: int,
    hp: int,
    gold: int,
    exp: int,
    location: int,
    job: string,
    skp: int,
    attackBuffUntil: int,
    statusEffect: Option<string>,
    statusEffectEndTime: int,
    statusEffectValue: int)

  /** The HP ceiling use_item applies at a level. */
  function MaxHp(level: int): int {
    100 + (level - 1) * 10
  }

  const Consumable := "consumable"
  const HpRecovery := "hp_recovery"
  const AttackBoost := "attack_boost"
  const StatusApply := "status_effect_apply"
  const StatusCure := "status_effect_cure"

  // ---------------------------------------------------------------------------
  // use_item

  datatype UseOutcome =
    | NotHeld
    | NotUsable
    | Faulted          // the effect needs a value and the item has none: the command raises
    | AlreadyFull
    | Recovered(amount: int)
    | Boosted(until: int)
    | StatusApplied(effect: Option<string>, until: int)
    | CurePending      // curing is announced but changes nothing
    | NoEffect

  datatype UseResult = UseResult(outcome: UseOutcome, player: Player, slots: Slots) {
    /** The item was used: its effect applied and one of it consumed. */
    predicate Used() { !(outcome.NotHeld? || outcome.NotUsable? || outcome.Faulted?) }
  }

  /** The effect of a consumable on the player, before consumption: the
      effect branches of game_cog.py:470-494. */
  function Effect(p: Player, it: Item, now: int): (UseOutcome, Player) {
    if it.effectType == Some(HpRecovery) then
      match it.effectValue
      case None => (Faulted, p)
      case Some(v) =>
        var recovered := Min(MaxHp(p.level) - p.hp, v);
        if recovered <= 0 then (AlreadyFull, p) else (Recovered(recovered), p.(hp := p.hp + recovered))
    else if it.effectType == Some(AttackBoost) then
      match it.effectValue
      case None => (Faulted, p)
      case Some(v) => (Boosted(now + v), p.(attackBuffUntil := now + v))
    else if it.effectType == Some(StatusApply) then
      match it.effectValue
      case None => (Faulted, p)
      case Some(v) =>
        (StatusApplied(it.effectName, now + v), p.(statusEffect := it.effectName, statusEffectEndTime := now + v))
    else if it.effectType == Some(StatusCure) then (CurePending, p)
    else (NoEffect, p)
  }

  /** The player holds a row of the item of that exact name (at any quantity)
      and it is a consumable. */
  predicate Usable(s: Slots, c: Catalog, name: string) {
    ByExactName(c, name).Some? && ByExactName(c, name).value.id in s
    && ByExactName(c, name).value.itemType == Consumable
  }

  /** Using the item of that exact name. Any row of it will do, even one at
      quantity 0; only consumables are usable. A used item loses one, or its
      row when one or fewer remain. A fault changes nothing. */
  function UseItem(p: Player, s: Slots, c: Catalog, name: string, now: int): (r: UseResult)
    ensures !r.Used() ==> r.player == p && r.slots == s
    ensures r.outcome.NotHeld? <==> !(ByExactName(c, name).Some? && ByExactName(c, name).value.id in s)
    ensures r.outcome.NotUsable? <==>
      ByExactName(c, name).Some? && ByExactName(c, name).value.id in s && ByExactName(c, name).value.itemType != Consumable
    ensures r.Used() ==> var id := ByExactName(c, name).value.id;
      id in s && r.slots == ConsumeOne(s, id)
    ensures r.player.hp >= p.hp
    ensures p.hp <= MaxHp(p.level) ==> r.player.hp <= MaxHp(p.level)
    ensures r.player.hp != p.hp ==> r.outcome.Recovered? && r.player.hp == p.hp + r.outcome.amount
    ensures r.outcome.Recovered? ==> r.player.hp == p.hp + r.outcome.amount
    ensures r.player.(hp := p.hp, attackBuffUntil := p.attackBuffUntil,
                      statusEffect := p.statusEffect, statusEffectEndTime := p.statusEffectEndTime) == p
    ensures r.player.attackBuffUntil != p.attackBuffUntil ==> r.outcome.Boosted?
    ensures r.player.statusEffectEndTime != p.statusEffectEndTime ==> r.outcome.StatusApplied?
    ensures r.player.statusEffect != p.statusEffect ==> r.outcome.StatusApplied?
    ensures Usable(s, c, name) ==> var it := ByExactName(c, name).value;
      && (r.outcome.Faulted? <==>
            it.effectValue.None? && it.effectType in {Some(HpRecovery), Some(AttackBoost), Some(StatusApply)})
      && (r.outcome.Recovered? || r.outcome.AlreadyFull? <==> it.effectType == Some(HpRecovery) && it.effectValue.Some?)
      && (r.outcome.Recovered? ==> r.outcome.amount == Min(MaxHp(p.level) - p.hp, it.effectValue.value) > 0)
      && (r.outcome.AlreadyFull? ==> Min(MaxHp(p.level) - p.hp, it.effectValue.value) <= 0)
      && (r.outcome.Boosted? <==> it.effectType == Some(AttackBoost) && it.effectValue.Some?)
      && (r.outcome.Boosted? ==>
            r.outcome.until == now + it.effectValue.value && r.player.attackBuffUntil == now + it.effectValue.value)
      && (r.outcome.StatusApplied? <==> it.effectType == Some(StatusApply) && it.effectValue.Some?)
      && (r.outcome.StatusApplied? ==>
            && r.outcome.effect == it.effectName && r.outcome.until == now + it.effectValue.value
            && r.player.statusEffect == it.effectName && r.player.statusEffectEndTime == now + it.effectValue.value)
      && (r.outcome.CurePending? <==> it.effectType == Some(StatusCure))
      && (r.outcome.NoEffect? <==>
            it.effectType !in {Some(HpRecovery), Some(AttackBoost), Some(StatusApply), Some(StatusCure)})
  {
    match ByExactName(c, name)
    case None => UseResult(NotHeld, p, s)
    case Some(it) =>
      if it.id !in s then UseResult(NotHeld, p, s)
      else if it.itemType != Consumable then UseResult(NotUsable, p, s)
      else
        var (outcome, q) := Effect(p, it, now);
        if outcome.Faulted? then UseResult(Faulted, p, s) else UseResult(outcome, q, ConsumeOne(s, it.id))
  }

  /** The effect's outcome for a user without a players row: the recovery
      branch raises on reading the missing row, and the other effects update
      no row of players. */
  function EffectWithoutRow(it: Item, now: int): (o: UseOutcome)
    ensures it.effectType == Some(HpRecovery) ==> o == Faulted
    ensures it.effectType != Some(HpRecovery) ==> forall p :: o == Effect(p, it, now).0
  {
    if it.effectType == Some(HpRecovery) then Faulted
    else if it.effectType == Some(AttackBoost) || it.effectType == Some(StatusApply) then
      match it.effectValue
      case None => Faulted
      case Some(v) =>
        if it.effectType == Some(AttackBoost) then Boosted(now + v) else StatusApplied(it.effectName, now + v)
    else if it.effectType == Some(StatusCure) then CurePending
    else NoEffect
  }

  /** use_item for a user without a players row. The inventory join decides
      as for anyone, and an effect that does not raise uses the item up as
      for anyone. */
  function UseItemWithoutRow(s: Slots, c: Catalog, name: string, now: int): (r: (UseOutcome, Slots))
    ensures Usable(s, c, name) && ByExactName(c, name).value.effectType == Some(HpRecovery) ==> r == (Faulted, s)
    ensures !(Usable(s, c, name) && ByExactName(c, name).value.effectType == Some(HpRecovery)) ==>
      forall p :: r == (UseItem(p, s, c, name, now).outcome, UseItem(p, s, c, name, now).slots)
  {
    match ByExactName(c, name)
    case None => (NotHeld, s)
    case Some(it) =>
      if it.id !in s then (NotHeld, s)
      else if it.itemType != Consumable then (NotUsable, s)
      else
        var o := EffectWithoutRow(it, now);
        if o.Faulted? then (Faulted, s) else (o, ConsumeOne(s, it.id))
  }

  /** A recovery potion with value `v` heals min(max_hp - hp, v) when that is
      positive and nothing otherwise, and is consumed either way. */
  lemma HpRecoveryHealsUpToMax(p: Player, s: Slots, c: Catalog, name: string, now: int, v: int)
    requires ByExactName(c, name).Some?
    requires var it := ByExactName(c, name).value;
      it.id in s && it.itemType == Consumable && it.effectType == Some(HpRecovery) && it.effectValue == Some(v)
    ensures var r := UseItem(p, s, c, name, now);
      var healed := Min(MaxHp(p.level) - p.hp, v);
      && r.Used()
      && r.player.hp == (if healed > 0 then p.hp + healed else p.hp)
      && r.slots == ConsumeOne(s, ByExactName(c, name).value.id)
  {
  }

  /** A consumable whose effect needs a value but has none faults on every
      use: the player and the rows stay as they were. */
  lemma ValuelessEffectFaults(p: Player, s: Slots, c: Catalog, name: string, now: int)
    requires ByExactName(c, name).Some?
    requires var it := ByExactName(c, name).value;
      && it.id in s && it.itemType == Consumable && it.effectValue.None?
      && (it.effectType == Some(HpRecovery) || it.effectType == Some(AttackBoost) || it.effectType == Some(StatusApply))
    ensures UseItem(p, s, c, name, now) == UseResult(Faulted, p, s)
  {
  }

  // ---------------------------------------------------------------------------
  // choose_job

  const Novice := "초보자"
  const Swordsman := "검사"
  const Mage := "마법사"

  datatype JobOutcome = AlreadyChosen(current: string) | InvalidJob | JobChosen

  /** A novice may become a swordsman or a mage and receives one skill point;
      anyone else is refused first, and any other job name after that. */
  function ChooseJob(p: Player, jobName: string): (r: (JobOutcome, Player))
    ensures r.0.JobChosen? <==> p.job == Novice && (jobName == Swordsman || jobName == Mage)
    ensures r.0.AlreadyChosen? <==> p.job != Novice
    ensures r.0.AlreadyChosen? ==> r.0.current == p.job
    ensures r.0.JobChosen? ==> r.1.job == jobName && r.1.skp == 1 && r.1.(job := p.job, skp := p.skp) == p
    ensures !r.0.JobChosen? ==> r.1 == p
  {
    if p.job != Novice then (AlreadyChosen(p.job), p)
    else if jobName != Swordsman && jobName != Mage then (InvalidJob, p)
    else (JobChosen, p.(job := jobName, skp := 1))
  }

  /** A job is chosen once: every later choice is refused and changes nothing. */
  lemma ChooseJobIsFinal(p: Player, first: string, later: string)
    requires ChooseJob(p, first).0.JobChosen?
    ensures var q := ChooseJob(p, first).1;
      ChooseJob(q, later) == (AlreadyChosen(first), q)
  {
  }
}
