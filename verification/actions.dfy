/** What each location action of the do_action command yields: the roll that
    decides it, the tool it wears out and the item it grants. `roll` stands
    for `random.random()` scaled to a whole percentage in [0, 100), so
    `random.random() < 0.3` reads `roll < 30`. */
module Actions {
  import opened Wrappers
  import opened Items
  import opened Inventory
  import opened World

  const BushSearch := "덤불 살피기"
  const TreeClimb := "나무 올라가기"
  const ThicketPush := "수풀 헤치기"
  const MushroomPick := "버섯 채집"
  const DoorKnock := "문 두드리기"
  const RubbleSearch := "잔해 뒤지기"
  const Fishing := "낚시하기"
  const Mining := "광물 채집"

  const Twig := "나뭇가지"
  const ToughLeaf := "질긴 나뭇잎"
  const OldPickaxe := "낡은 곡괭이"
  const SturdyRod := "튼튼한 낚싯대"
  const OldRod := "낡은 낚싯대"
  const Minnow := "송사리"
  const Carp := "잉어"
  const IronOre := "철광석"

  datatype ActionOutcome =
    | Found(item: string)
    | NothingFound
    | WrongPlace
    | NoRod
    | NoPickaxe
    | ToolFailed
    | Unhandled      // an action the location offers but no branch handles

  /** The outcome, the tool worn out on the way (if any) and the rows afterwards. */
  datatype ActionResult = ActionResult(outcome: ActionOutcome, tool: Option<string>, slots: Slots)

  /** The items an action can ever grant. */
  function Finds(action: string): set<string> {
    if action == BushSearch then {Twig}
    else if action == TreeClimb then {ToughLeaf}
    else if action == RubbleSearch then {OldPickaxe}
    else if action == Fishing then {Minnow, Carp}
    else if action == Mining then {IronOre}
    else {}
  }

  /** The rod fishing takes: the sturdy one when held, else the old one. */
  function RodFor(s: Slots, c: Catalog): Option<string> {
    if HasItem(s, c, SturdyRod) then Some(SturdyRod)
    else if HasItem(s, c, OldRod) then Some(OldRod)
    else None
  }

  function Gain(s: Slots, c: Catalog, item: string, tool: Option<string>): ActionResult {
    ActionResult(Found(item), tool, AddItem(s, c, item, 1).slots)
  }

  /** Wears out `tool`, then grants `catch` when there is one: the tool
      branches of game_cog.py:745-783. */
  function WithTool(s: Slots, c: Catalog, tool: string, catch: Option<string>): ActionResult {
    var used := UseTool(s, c, tool);
    if !used.Succeeded() then ActionResult(ToolFailed, Some(tool), used.slots)
    else
      match catch
      case Some(item) => Gain(used.slots, c, item, Some(tool))
      case None => ActionResult(NothingFound, Some(tool), used.slots)
  }

  /** The action `action` taken at the location named `here`. A tool is used only
      when held, and the rows change only by that one use followed by one grant
      of the item found, which is always one the action can yield. */
  function Resolve(action: string, here: string, s: Slots, c: Catalog, roll: int): (r: ActionResult)
    ensures r.tool.Some? ==> HasItem(s, c, r.tool.value) && r.tool.value in {SturdyRod, OldRod, OldPickaxe}
    ensures r.outcome.Found? ==> r.outcome.item in Finds(action)
    ensures var worn := if r.tool.Some? then UseTool(s, c, r.tool.value).slots else s;
      r.slots == (if r.outcome.Found? then AddItem(worn, c, r.outcome.item, 1).slots else worn)
  {
    if action == BushSearch then
      if roll < 50 then Gain(s, c, Twig, None) else ActionResult(NothingFound, None, s)
    else if action == TreeClimb then
      if roll < 30 then ActionResult(NothingFound, None, s) else Gain(s, c, ToughLeaf, None)
    else if action == ThicketPush || action == MushroomPick || action == DoorKnock then
      ActionResult(NothingFound, None, s)
    else if action == RubbleSearch then
      if roll < 40 then Gain(s, c, OldPickaxe, None) else ActionResult(NothingFound, None, s)
    else if action == Fishing then
      if here != Riverside then ActionResult(WrongPlace, None, s)
      else
        match RodFor(s, c)
        case None => ActionResult(NoRod, None, s)
        case Some(rod) =>
          WithTool(s, c, rod, if roll < 50 then Some(Minnow) else if roll < 80 then Some(Carp) else None)
    else if action == Mining then
      if here != DarkCave then ActionResult(WrongPlace, None, s)
      else if !HasItem(s, c, OldPickaxe) then ActionResult(NoPickaxe, None, s)
      else WithTool(s, c, OldPickaxe, if roll < 60 then Some(IronOre) else None)
    else ActionResult(Unhandled, None, s)
  }

  /** Gathering succeeds on these rolls and no others; the flavour actions
      never change the rows. */
  lemma GatheringOdds(here: string, s: Slots, c: Catalog, roll: int)
    ensures Resolve(BushSearch, here, s, c, roll).outcome.Found? <==> roll < 50
    ensures Resolve(TreeClimb, here, s, c, roll).outcome.Found? <==> roll >= 30
    ensures Resolve(RubbleSearch, here, s, c, roll).outcome.Found? <==> roll < 40
    ensures Resolve(ThicketPush, here, s, c, roll).slots == s
    ensures Resolve(MushroomPick, here, s, c, roll).slots == s
    ensures Resolve(DoorKnock, here, s, c, roll).slots == s
  {
  }

  /** Fishing happens only on the river bank and takes the sturdy rod in
      preference to the old one; without a rod nothing changes. */
  lemma FishingTakesTheBestRod(here: string, s: Slots, c: Catalog, roll: int)
    ensures here != Riverside ==> Resolve(Fishing, here, s, c, roll) == ActionResult(WrongPlace, None, s)
    ensures here == Riverside && HasItem(s, c, SturdyRod) ==>
      Resolve(Fishing, here, s, c, roll).tool == Some(SturdyRod)
    ensures here == Riverside && !HasItem(s, c, SturdyRod) && HasItem(s, c, OldRod) ==>
      Resolve(Fishing, here, s, c, roll).tool == Some(OldRod)
    ensures here == Riverside && !HasItem(s, c, SturdyRod) && !HasItem(s, c, OldRod) ==>
      Resolve(Fishing, here, s, c, roll) == ActionResult(NoRod, None, s)
  {
  }

  /** A held rod always works, and the catch goes by the roll: a minnow below
      50, a carp below 80, nothing above. */
  lemma FishingCatch(s: Slots, c: Catalog, roll: int)
    requires RodFor(s, c).Some?
    ensures var r := Resolve(Fishing, Riverside, s, c, roll);
      && r.tool == RodFor(s, c)
      && r.outcome == (if roll < 50 then Found(Minnow) else if roll < 80 then Found(Carp) else NothingFound)
  {
  }

  /** Mining changes the rows only in the cave and only with a pickaxe held;
      there it always wears the pickaxe and yields ore below 60. */
  lemma MiningNeedsCaveAndPickaxe(here: string, s: Slots, c: Catalog, roll: int)
    ensures Resolve(Mining, here, s, c, roll).slots != s ==> here == DarkCave && HasItem(s, c, OldPickaxe)
    ensures here == DarkCave && HasItem(s, c, OldPickaxe) ==>
      && Resolve(Mining, here, s, c, roll).tool == Some(OldPickaxe)
      && (Resolve(Mining, here, s, c, roll).outcome.Found? <==> roll < 60)
  {
  }
}
