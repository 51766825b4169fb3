/** The inventory ledger of game_cog.py: one player's rows of the
    player_inventory table, keyed by item id, and the rules that add, wear
    out, deduct and consume them. Every function here maps the rows before a
    command to the rows after it; the methods of `Game.GameCog` apply these
    changes in place. */
module Inventory {
  import opened Wrappers
  import opened Items

  /** One player_inventory row; `durability` is NULL for rows inserted without one. */
  datatype Slot = Slot(quantity: int, durability: Option<int>)

  /** One player's rows, by item id. */
  type Slots = map<int, Slot>

  function Min(a: int, b: int): int {
    if a <= b then a else b
  }

  // ---------------------------------------------------------------------------
  // _has_item

  /** A row joins the item of that exact name and holds a positive quantity. */
  predicate HasItem(s: Slots, c: Catalog, name: string)
    ensures HasItem(s, c, name) ==>
      exists it :: it in c.items.Values && it.name == name && it.id in s && s[it.id].quantity > 0
  {
    match ByExactName(c, name)
    case Some(it) => it.id in s && s[it.id].quantity > 0
    case None => false
  }

  /** With unique names, `HasItem` is the SQL join: some row of an item so named
      has a positive quantity. */
  lemma HasItemIsJoin(s: Slots, c: Catalog, name: string)
    requires WellFormed(c) && UniqueNames(c)
    ensures HasItem(s, c, name) <==>
      exists id :: id in s && id in c.items && c.items[id].name == name && s[id].quantity > 0
  {
    if HasItem(s, c, name) {
      FindStoredUnderId(c, name, true);
      var id := ByExactName(c, name).value.id;
      assert id in s && id in c.items && c.items[id].name == name && s[id].quantity > 0;
    } else {
      forall id | id in s && id in c.items && c.items[id].name == name
        ensures s[id].quantity <= 0
      {
        ByExactNameUnique(c, name, id);
      }
    }
  }

  // ---------------------------------------------------------------------------
  // add_item_to_inventory

  datatype AddResult = AddResult(ok: bool, slots: Slots)

  /** Grants `qty` of the item found by name, ignoring case. A stackable item
      already held is clamped at its maximum stack; a non-stackable one already
      held is silently dropped; an item not held gets a new row carrying the
      item's maximum durability. An unknown name fails. */
  function AddItem(s: Slots, c: Catalog, name: string, qty: int): (r: AddResult)
    ensures r.ok <==> ByName(c, name).Some?
    ensures !r.ok ==> r.slots == s
    ensures r.ok ==> var it := ByName(c, name).value;
      && r.slots.Keys == s.Keys + {it.id}
      && (forall id :: id in s && id != it.id ==> r.slots[id] == s[id])
      && (it.id in s && it.stackable ==>
            && r.slots[it.id].quantity <= it.maxStack
            && r.slots[it.id].quantity == Min(s[it.id].quantity + qty, it.maxStack)
            && r.slots[it.id].durability == s[it.id].durability)
      && (it.id in s && !it.stackable ==> r.slots == s)
      && (it.id !in s ==> r.slots[it.id] == Slot(qty, it.maxDurability))
  {
    match ByName(c, name)
    case None => AddResult(false, s)
    case Some(it) =>
      if it.id in s && it.stackable then
        var q := s[it.id].quantity + qty;
        AddResult(true, s[it.id := s[it.id].(quantity := if q > it.maxStack then it.maxStack else q)])
      else if it.id !in s then
        AddResult(true, s[it.id := Slot(qty, it.maxDurability)])
      else
        AddResult(true, s)
  }

  /** The rows after `n` grants of `qty` of the same item. */
  function AddRepeatedly(s: Slots, c: Catalog, name: string, qty: int, n: nat): Slots
    decreases n
  {
    if n == 0 then s else AddItem(AddRepeatedly(s, c, name, qty, n - 1), c, name, qty).slots
  }

  /** Granting a held stackable item `n` times leaves min(old + n*qty, max_stack):
      once the running total passes the maximum, the row sits exactly at it. */
  lemma {:induction false} RepeatedAddClampsAtMaxStack(s: Slots, c: Catalog, name: string, qty: int, n: nat)
    requires ByName(c, name).Some? && ByName(c, name).value.stackable
    requires ByName(c, name).value.id in s
    requires qty >= 0 && n >= 1
    ensures var id := ByName(c, name).value.id;
      && id in AddRepeatedly(s, c, name, qty, n)
      && AddRepeatedly(s, c, name, qty, n)[id].quantity
         == Min(s[id].quantity + n * qty, ByName(c, name).value.maxStack)
    decreases n
  {
    if n > 1 {
      RepeatedAddClampsAtMaxStack(s, c, name, qty, n - 1);
      assert (n - 1) * qty + qty == n * qty;
    }
  }

  /** As written, the item built by the loader has no `max_durability`
      attribute, so the insert branch raises instead of adding a row. */
  datatype AddOutcomeAsWritten = AddedAsWritten(ok: bool, slots: Slots) | RaisedAttributeError

  function AddItemAsWritten(s: Slots, c: Catalog, name: string, qty: int): (r: AddOutcomeAsWritten)
    ensures r.RaisedAttributeError? <==> ByName(c, name).Some? && ByName(c, name).value.id !in s
    ensures r.AddedAsWritten? ==> (r.ok <==> ByName(c, name).Some?) && s.Keys == r.slots.Keys
  {
    match ByName(c, name)
    case None => AddedAsWritten(false, s)
    case Some(it) =>
      if it.id in s && it.stackable then
        var q := s[it.id].quantity + qty;
        AddedAsWritten(true, s[it.id := s[it.id].(quantity := if q > it.maxStack then it.maxStack else q)])
      else if it.id !in s then
        RaisedAttributeError
      else
        AddedAsWritten(true, s)
  }

  /** As written, granting a known item the player does not hold always raises. */
  lemma AddItemAsWrittenRaisesOnFirstGrant(s: Slots, c: Catalog, name: string, qty: int)
    requires ByName(c, name).Some? && ByName(c, name).value.id !in s
    ensures AddItemAsWritten(s, c, name, qty) == RaisedAttributeError
    ensures AddItem(s, c, name, qty).ok && ByName(c, name).value.id in AddItem(s, c, name, qty).slots
  {
  }

  /** The concrete input: the first potion found by a player with empty rows. */
  lemma FirstPotionGrantRaisesAsWritten()
    ensures var potion := Item(1, "기초 회복 물약", "", "consumable", Some("hp_recovery"), Some(2),
                               true, 99, None, None);
      AddItemAsWritten(map[], Catalog(map[1 := potion], [1]), "기초 회복 물약", 1) == RaisedAttributeError
  {
    var potion := Item(1, "기초 회복 물약", "", "consumable", Some("hp_recovery"), Some(2),
                       true, 99, None, None);
    var c := Catalog(map[1 := potion], [1]);
    FindFirst(c, "기초 회복 물약", false, 0);
  }

  /** Wherever the as-written grant does not raise, it agrees with `AddItem`. */
  lemma AddItemAsWrittenAgreesOtherwise(s: Slots, c: Catalog, name: string, qty: int)
    requires AddItemAsWritten(s, c, name, qty).AddedAsWritten?
    ensures AddItemAsWritten(s, c, name, qty).ok == AddItem(s, c, name, qty).ok
    ensures AddItemAsWritten(s, c, name, qty).slots == AddItem(s, c, name, qty).slots
  {
  }

  // ---------------------------------------------------------------------------
  // _use_tool

  datatype ToolOutcome = ToolMissing | Unlimited | Worn(left: int) | Broke

  datatype ToolResult = ToolResult(outcome: ToolOutcome, slots: Slots) {
    predicate Succeeded() { !outcome.ToolMissing? }
  }

  /** One use of the tool of that exact name. A tool without maximum durability
      never wears; otherwise the row's durability (the maximum when NULL) drops
      by one and the row is deleted once it reaches zero. */
  function UseTool(s: Slots, c: Catalog, name: string): (r: ToolResult)
    ensures r.outcome.ToolMissing? <==> !(ByExactName(c, name).Some? && ByExactName(c, name).value.id in s)
    ensures r.outcome.ToolMissing? || r.outcome.Unlimited? ==> r.slots == s
    ensures !r.outcome.ToolMissing? ==> var it := ByExactName(c, name).value;
      && (r.outcome.Unlimited? <==> it.maxDurability.None?)
      && (forall id :: id in s && id != it.id ==> id in r.slots && r.slots[id] == s[id])
      && (it.maxDurability.Some? ==>
            var d := s[it.id].durability.GetOr(it.maxDurability.value);
            && (r.outcome.Broke? <==> d - 1 <= 0)
            && (r.outcome.Broke? ==> r.slots == s - {it.id})
            && (r.outcome.Worn? ==>
                  && r.outcome.left == d - 1
                  && r.slots == s[it.id := Slot(s[it.id].quantity, Some(d - 1))]))
  {
    match ByExactName(c, name)
    case None => ToolResult(ToolMissing, s)
    case Some(it) =>
      if it.id !in s then ToolResult(ToolMissing, s)
      else
        match it.maxDurability
        case None => ToolResult(Unlimited, s)
        case Some(m) =>
          var current := s[it.id].durability.GetOr(m);
          var next := current - 1;
          if next > 0 then ToolResult(Worn(next), s[it.id := s[it.id].(durability := Some(next))])
          else ToolResult(Broke, s - {it.id})
  }

  /** The rows after `n` uses of the same tool. */
  function UseToolTimes(s: Slots, c: Catalog, name: string, n: nat): Slots
    decreases n
  {
    if n == 0 then s else UseTool(UseToolTimes(s, c, name, n - 1), c, name).slots
  }

  /** A tool with `d` uses left (its durability, or the maximum when NULL)
      survives `d - 1` uses, each taking exactly one point, and breaks on use `d`. */
  lemma {:induction false} ToolLastsItsDurability(s: Slots, c: Catalog, name: string, n: nat)
    requires ByExactName(c, name).Some? && ByExactName(c, name).value.maxDurability.Some?
    requires ByExactName(c, name).value.id in s
    requires var it := ByExactName(c, name).value;
      1 <= n <= s[it.id].durability.GetOr(it.maxDurability.value)
    ensures var it := ByExactName(c, name).value;
      var d := s[it.id].durability.GetOr(it.maxDurability.value);
      && (n < d ==> it.id in UseToolTimes(s, c, name, n)
                    && UseToolTimes(s, c, name, n)[it.id] == Slot(s[it.id].quantity, Some(d - n)))
      && (n == d ==> it.id !in UseToolTimes(s, c, name, n))
    decreases n
  {
    if n > 1 {
      ToolLastsItsDurability(s, c, name, n - 1);
    }
  }

  // ---------------------------------------------------------------------------
  // craft

  /** A recipe: material names with the amount each requires, in dictionary order. */
  type Recipe = seq<(string, int)>

  /** The player holds at least the required amount of the material. */
  predicate Enough(s: Slots, c: Catalog, m: (string, int)) {
    match ByExactName(c, m.0)
    case Some(it) => it.id in s && s[it.id].quantity >= m.1
    case None => false
  }

  /** The position of the first material the player lacks, or |r| when none is lacking. */
  function Shortage(s: Slots, c: Catalog, r: Recipe): (k: nat)
    ensures k <= |r|
    ensures forall j :: 0 <= j < k ==> Enough(s, c, r[j])
    ensures k < |r| ==> !Enough(s, c, r[k])
    decreases |r|
  {
    if |r| == 0 then 0
    else if !Enough(s, c, r[0]) then 0
    else 1 + Shortage(s, c, r[1..])
  }

  /** SQL's `quantity = quantity - required` on the row of that exact name; no
      row, no change. */
  function DeductOne(s: Slots, c: Catalog, m: (string, int)): Slots {
    match ByExactName(c, m.0)
    case Some(it) =>
      if it.id in s then s[it.id := s[it.id].(quantity := s[it.id].quantity - m.1)] else s
    case None => s
  }

  function DeductAll(s: Slots, c: Catalog, r: Recipe): Slots
    decreases |r|
  {
    if |r| == 0 then s else DeductOne(DeductAll(s, c, r[..|r| - 1]), c, r[|r| - 1])
  }

  /** The total the recipe takes from the row with id `id`. */
  function Taken(c: Catalog, r: Recipe, id: int): int
    decreases |r|
  {
    if |r| == 0 then 0
    else
      var last := r[|r| - 1];
      Taken(c, r[..|r| - 1], id)
        + (if ByExactName(c, last.0).Some? && ByExactName(c, last.0).value.id == id then last.1 else 0)
  }

  /** Deducting keeps every row and takes from each exactly what the recipe names
      for it; durability is never touched. */
  lemma {:induction false} DeductAllTakes(s: Slots, c: Catalog, r: Recipe, id: int)
    ensures DeductAll(s, c, r).Keys == s.Keys
    ensures id in s ==> DeductAll(s, c, r)[id] == Slot(s[id].quantity - Taken(c, r, id), s[id].durability)
    decreases |r|
  {
    if |r| > 0 {
      DeductAllTakes(s, c, r[..|r| - 1], id);
      var front := DeductAll(s, c, r[..|r| - 1]);
      var last := r[|r| - 1];
      forall k | k in s
        ensures DeductOne(front, c, last).Keys == front.Keys
      {
        DeductAllTakes(s, c, r[..|r| - 1], k);
      }
    }
  }

  predicate DistinctNames(r: Recipe) {
    forall i, j :: 0 <= i < j < |r| ==> r[i].0 != r[j].0
  }

  /** The row id the material names, if the catalog knows it. */
  function MaterialId(c: Catalog, m: (string, int)): Option<int> {
    match ByExactName(c, m.0)
    case Some(it) => Some(it.id)
    case None => None
  }

  /** Different names never resolve to the same stored item. */
  lemma DistinctNamesDistinctIds(c: Catalog, a: string, b: string)
    requires WellFormed(c) && a != b
    requires ByExactName(c, a).Some? && ByExactName(c, b).Some?
    ensures ByExactName(c, a).value.id != ByExactName(c, b).value.id
  {
    FindStoredUnderId(c, a, true);
    FindStoredUnderId(c, b, true);
  }

  /** With distinct material names, the recipe takes from a material's row
      exactly that material's requirement, and nothing from any other row. */
  lemma {:induction false} TakenIsRequirement(c: Catalog, r: Recipe, id: int)
    requires WellFormed(c) && DistinctNames(r)
    ensures forall j :: 0 <= j < |r| && MaterialId(c, r[j]) == Some(id) ==> Taken(c, r, id) == r[j].1
    ensures (forall j :: 0 <= j < |r| ==> MaterialId(c, r[j]) != Some(id)) ==> Taken(c, r, id) == 0
    decreases |r|
  {
    if |r| > 0 {
      var front := r[..|r| - 1];
      var last := r[|r| - 1];
      assert forall j :: 0 <= j < |front| ==> front[j] == r[j];
      TakenIsRequirement(c, front, id);
      if MaterialId(c, last) == Some(id) {
        forall j | 0 <= j < |front| ensures MaterialId(c, front[j]) != Some(id) {
          if MaterialId(c, front[j]) == Some(id) {
            DistinctNamesDistinctIds(c, front[j].0, last.0);
          }
        }
      }
    }
  }

  /** The crafted item: one more in an existing row (whatever its stacking
      rules), or a new row of quantity 1 with NULL durability. */
  function GrantCrafted(s: Slots, id: int): Slots {
    if id in s then s[id := s[id].(quantity := s[id].quantity + 1)] else s[id := Slot(1, None)]
  }

  datatype CraftOutcome = NoRecipe | Short(material: string, required: int) | UnknownProduct | Crafted

  datatype CraftResult = CraftResult(outcome: CraftOutcome, slots: Slots)

  /** Crafting `target`: every material is checked before anything is taken; the
      first one lacking is reported and nothing changes. Otherwise each material
      loses its requirement and the product is granted; a product the catalog
      does not know rolls everything back. */
  function Craft(s: Slots, c: Catalog, recipes: map<string, Recipe>, target: string): (r: CraftResult)
    ensures !r.outcome.Crafted? ==> r.slots == s
    ensures r.outcome.NoRecipe? <==> target !in recipes
    ensures r.outcome.Short? <==>
      target in recipes && exists k :: 0 <= k < |recipes[target]| && !Enough(s, c, recipes[target][k])
    ensures r.outcome.UnknownProduct? <==>
      && target in recipes
      && (forall j :: 0 <= j < |recipes[target]| ==> Enough(s, c, recipes[target][j]))
      && ByName(c, target).None?
    ensures r.outcome.Crafted? <==>
      && target in recipes
      && (forall j :: 0 <= j < |recipes[target]| ==> Enough(s, c, recipes[target][j]))
      && ByName(c, target).Some?
    ensures r.outcome.Short? ==>
      target in recipes
      && (exists k :: 0 <= k < |recipes[target]|
           && !Enough(s, c, recipes[target][k])
           && recipes[target][k] == (r.outcome.material, r.outcome.required)
           && forall j :: 0 <= j < k ==> Enough(s, c, recipes[target][j]))
    ensures r.outcome.Crafted? ==>
      r.slots == GrantCrafted(DeductAll(s, c, recipes[target]), ByName(c, target).value.id)
  {
    if target !in recipes then CraftResult(NoRecipe, s)
    else
      var recipe := recipes[target];
      var k := Shortage(s, c, recipe);
      if k < |recipe| then CraftResult(Short(recipe[k].0, recipe[k].1), s)
      else
        match ByName(c, target)
        case None => CraftResult(UnknownProduct, s)
        case Some(it) => CraftResult(Crafted, GrantCrafted(DeductAll(s, c, recipe), it.id))
  }

  /** Craft's four branches, one equation each, for the loop-by-loop method
      that computes it. */
  lemma CraftBranches(s: Slots, c: Catalog, recipes: map<string, Recipe>, target: string)
    ensures target !in recipes ==> Craft(s, c, recipes, target) == CraftResult(NoRecipe, s)
    ensures target in recipes && Shortage(s, c, recipes[target]) < |recipes[target]| ==>
      var k := Shortage(s, c, recipes[target]);
      Craft(s, c, recipes, target) == CraftResult(Short(recipes[target][k].0, recipes[target][k].1), s)
    ensures target in recipes && Shortage(s, c, recipes[target]) == |recipes[target]| && ByName(c, target).None? ==>
      Craft(s, c, recipes, target) == CraftResult(UnknownProduct, s)
    ensures target in recipes && Shortage(s, c, recipes[target]) == |recipes[target]| && ByName(c, target).Some? ==>
      Craft(s, c, recipes, target) ==
        CraftResult(Crafted, GrantCrafted(DeductAll(s, c, recipes[target]), ByName(c, target).value.id))
  {
  }

  /** After a successful craft each material's row has lost exactly its
      requirement (and gained one if it is the product itself); the product's
      row gained one, or was inserted with quantity 1 and NULL durability; every
      other row is unchanged. Rows that reach zero stay. */
  lemma CraftTakesExactly(s: Slots, c: Catalog, recipes: map<string, Recipe>, target: string, id: int)
    requires WellFormed(c)
    requires target in recipes && DistinctNames(recipes[target])
    requires Craft(s, c, recipes, target).outcome.Crafted?
    ensures var r := recipes[target];
      var out := Craft(s, c, recipes, target).slots;
      var product := ByName(c, target).value.id;
      && out.Keys == s.Keys + {product}
      && (forall j :: 0 <= j < |r| && MaterialId(c, r[j]) == Some(id) ==>
            id in s && out[id].quantity == s[id].quantity - r[j].1 + (if id == product then 1 else 0))
      && (id in s && id != product && (forall j :: 0 <= j < |r| ==> MaterialId(c, r[j]) != Some(id)) ==>
            out[id] == s[id])
      && (id == product && id !in s ==> out[id] == Slot(1, None))
  {
    var r := recipes[target];
    DeductAllTakes(s, c, r, id);
    TakenIsRequirement(c, r, id);
    forall j | 0 <= j < |r| && MaterialId(c, r[j]) == Some(id) ensures id in s {
      assert Enough(s, c, r[j]);
    }
  }

  // ---------------------------------------------------------------------------
  // use_item's consumption

  /** One of the item is used up: a quantity above one drops by one, otherwise
      the row is deleted. */
  function ConsumeOne(s: Slots, id: int): (r: Slots)
    requires id in s
    ensures r.Keys <= s.Keys
    ensures forall k :: k in s && k != id ==> k in r && r[k] == s[k]
    ensures s[id].quantity > 1 ==> id in r && r[id] == s[id].(quantity := s[id].quantity - 1)
    ensures s[id].quantity <= 1 ==> id !in r
  {
    if s[id].quantity > 1 then s[id := s[id].(quantity := s[id].quantity - 1)] else s - {id}
  }
}
