/** The item catalog of item_manager.py: item records and their dictionary
    form, the loader that fills the id-keyed cache, and the lookups by id and
    by name. Python's dictionary keeps insertion order, which the lookup by
    name depends on, so the cache is an id-keyed map plus the order in which
    its keys were first inserted. */
module Items {
  import opened Wrappers

  /** One item definition. `maxDurability` is the items table's column of that
      name: absent for items that never wear out. */
  datatype Item = Item(
    id: int,
    name: string,
    description: string,
    itemType: string,
    effectType: Option<string>,
    effectValue: Option<int>,
    stackable: bool,
    maxStack: int,
    effectName: Option<string>,
    maxDurability: Option<int>)

  /** A row of the items table as the loader reads it; `stackable` is SQLite's
      integer encoding of a boolean. */
  datatype Row = Row(
    id: int,
    name: string,
    description: string,
    itemType: string,
    effectType: Option<string>,
    effectValue: Option<int>,
    stackable: int,
    maxStack: int,
    effectName: Option<string>,
    maxDurability: Option<int>)

  /** The item built from a row: every column is kept, `stackable` becomes a
      boolean (any non-zero integer is true). */
  function NewItem(r: Row): Item {
    Item(r.id, r.name, r.description, r.itemType, r.effectType, r.effectValue,
         r.stackable != 0, r.maxStack, r.effectName, r.maxDurability)
  }

  // ---------------------------------------------------------------------------
  // The dictionary form

  /** A value of the dictionary `to_dict` returns; `NoneV` is Python's None. */
  datatype Value = IntV(i: int) | StrV(s: string) | BoolV(b: bool) | NoneV

  function StrOrNone(o: Option<string>): Value {
    match o
    case Some(s) => StrV(s)
    case None => NoneV
  }

  function IntOrNone(o: Option<int>): Value {
    match o
    case Some(i) => IntV(i)
    case None => NoneV
  }

  /** The nine keys of the dictionary form: the constructor's parameters. */
  const DictKeys: set<string> :=
    {"id", "name", "description", "item_type", "effect_type", "effect_value",
     "stackable", "max_stack", "effect_name"}

  function ToDict(it: Item): (d: map<string, Value>)
    ensures d.Keys == DictKeys
  {
    map["id" := IntV(it.id),
        "name" := StrV(it.name),
        "description" := StrV(it.description),
        "item_type" := StrV(it.itemType),
        "effect_type" := StrOrNone(it.effectType),
        "effect_value" := IntOrNone(it.effectValue),
        "stackable" := BoolV(it.stackable),
        "max_stack" := IntV(it.maxStack),
        "effect_name" := StrOrNone(it.effectName)]
  }

  predicate NullableStr(v: Value) { v.StrV? || v.NoneV? }
  predicate NullableInt(v: Value) { v.IntV? || v.NoneV? }

  function StrOf(v: Value): Option<string> { if v.StrV? then Some(v.s) else None }
  function IntOf(v: Value): Option<int> { if v.IntV? then Some(v.i) else None }

  /** Reads a dictionary of the shape `ToDict` produces back into an item. The
      maximum durability is not part of that shape and is supplied apart. */
  function FromDict(d: map<string, Value>, maxDurability: Option<int>): Option<Item> {
    if && DictKeys <= d.Keys
       && d["id"].IntV? && d["name"].StrV? && d["description"].StrV?
       && d["item_type"].StrV? && NullableStr(d["effect_type"])
       && NullableInt(d["effect_value"]) && d["stackable"].BoolV?
       && d["max_stack"].IntV? && NullableStr(d["effect_name"])
    then
      Some(Item(d["id"].i, d["name"].s, d["description"].s, d["item_type"].s,
                StrOf(d["effect_type"]), IntOf(d["effect_value"]), d["stackable"].b,
                d["max_stack"].i, StrOf(d["effect_name"]), maxDurability))
    else
      None
  }

  /** The dictionary form loses nothing but the maximum durability. */
  lemma ToDictRoundTrip(it: Item)
    ensures FromDict(ToDict(it), it.maxDurability) == Some(it)
  {
  }

  /** An item built from a row shows, in its dictionary form, exactly the nine
      constructor arguments unchanged, with `stackable` normalised to a boolean. */
  lemma NewItemToDict(r: Row)
    ensures NewItem(r).stackable <==> r.stackable != 0
    ensures ToDict(NewItem(r)).Keys == DictKeys
    ensures var d := ToDict(NewItem(r));
      && d["id"] == IntV(r.id) && d["name"] == StrV(r.name)
      && d["description"] == StrV(r.description) && d["item_type"] == StrV(r.itemType)
      && d["effect_type"] == StrOrNone(r.effectType)
      && d["effect_value"] == IntOrNone(r.effectValue)
      && d["stackable"] == BoolV(r.stackable != 0) && d["max_stack"] == IntV(r.maxStack)
      && d["effect_name"] == StrOrNone(r.effectName)
  {
  }

  // ---------------------------------------------------------------------------
  // Names

  /** Lower-casing of one character. Only the ASCII letters are mapped; the
      lemmas below do not depend on which mapping is used. */
  function LowerChar(ch: char): char {
    if 'A' <= ch <= 'Z' then (ch as int + 32) as char else ch
  }

  function Lower(s: string): string {
    seq(|s|, i requires 0 <= i < |s| => LowerChar(s[i]))
  }

  /** Whether an item answers to the name `q`: exactly (as SQL's `=` compares
      names), or after lower-casing both sides (as the lookup by name does). */
  predicate Matches(it: Item, q: string, exact: bool) {
    if exact then it.name == q else Lower(it.name) == Lower(q)
  }

  predicate NameMatches(it: Item, q: string) {
    Matches(it, q, false)
  }

  // ---------------------------------------------------------------------------
  // The cache

  /** The cache: items by id, and the ids in the order they were first stored. */
  datatype Catalog = Catalog(items: map<int, Item>, order: seq<int>)

  predicate NoDuplicates(s: seq<int>) {
    forall i, j :: 0 <= i < j < |s| ==> s[i] != s[j]
  }

  /** The order lists each stored id once, and each item is stored under its id. */
  ghost predicate WellFormed(c: Catalog) {
    && (forall k :: k in c.items <==> k in c.order)
    && NoDuplicates(c.order)
    && (forall k :: k in c.items ==> c.items[k].id == k)
  }

  /** The items table's UNIQUE constraint on names. */
  ghost predicate UniqueNames(c: Catalog) {
    forall a, b :: a in c.items && b in c.items && c.items[a].name == c.items[b].name ==> a == b
  }

  predicate Hit(items: map<int, Item>, id: int, q: string, exact: bool) {
    id in items && Matches(items[id], q, exact)
  }

  /** The position of the first id in `ids` whose item answers to `q`, or |ids|. */
  function FirstIndex(items: map<int, Item>, ids: seq<int>, q: string, exact: bool): (k: nat)
    ensures k <= |ids|
    ensures k < |ids| ==> Hit(items, ids[k], q, exact)
    ensures forall j :: 0 <= j < k ==> !Hit(items, ids[j], q, exact)
    decreases |ids|
  {
    if |ids| == 0 then 0
    else if Hit(items, ids[0], q, exact) then 0
    else 1 + FirstIndex(items, ids[1..], q, exact)
  }

  /** The first stored item, in insertion order, that answers to `q`. */
  function Find(c: Catalog, q: string, exact: bool): (r: Option<Item>)
    ensures r.Some? ==> r.value in c.items.Values && Matches(r.value, q, exact)
    ensures r.None? <==> forall j :: 0 <= j < |c.order| ==> !Hit(c.items, c.order[j], q, exact)
  {
    var k := FirstIndex(c.items, c.order, q, exact);
    if k < |c.order| then Some(c.items[c.order[k]]) else None
  }

  /** The lookup by name, ignoring case: `get_item_by_name`,
      item_manager.py:51-55. */
  function ByName(c: Catalog, q: string): Option<Item> {
    Find(c, q, false)
  }

  /** The lookup of SQL's `WHERE name = ?`. */
  function ByExactName(c: Catalog, n: string): Option<Item> {
    Find(c, n, true)
  }

  /** No stored item answers to `q` exactly when the lookup finds nothing. */
  lemma FindNoneIff(c: Catalog, q: string, exact: bool)
    requires WellFormed(c)
    ensures Find(c, q, exact).None? <==> forall id :: id in c.items ==> !Matches(c.items[id], q, exact)
  {
    if Find(c, q, exact).None? {
      forall id | id in c.items ensures !Matches(c.items[id], q, exact) {
        var j :| 0 <= j < |c.order| && c.order[j] == id;
        assert !Hit(c.items, c.order[j], q, exact);
      }
    }
  }

  /** Of several items that answer to `q`, the one stored first is returned. */
  lemma FindFirst(c: Catalog, q: string, exact: bool, k: nat)
    requires k < |c.order| && Hit(c.items, c.order[k], q, exact)
    requires forall j :: 0 <= j < k ==> !Hit(c.items, c.order[j], q, exact)
    ensures Find(c, q, exact) == Some(c.items[c.order[k]])
  {
  }

  /** In a well-formed cache the item found is the one stored under its own id. */
  lemma FindStoredUnderId(c: Catalog, q: string, exact: bool)
    requires WellFormed(c) && Find(c, q, exact).Some?
    ensures Find(c, q, exact).value.id in c.items
    ensures c.items[Find(c, q, exact).value.id] == Find(c, q, exact).value
  {
    var k := FirstIndex(c.items, c.order, q, exact);
    assert c.items[c.order[k]].id == c.order[k];
  }

  /** Under unique names, the exact lookup finds the item of every id bearing that name. */
  lemma ByExactNameUnique(c: Catalog, n: string, id: int)
    requires WellFormed(c) && UniqueNames(c)
    requires id in c.items && c.items[id].name == n
    ensures ByExactName(c, n) == Some(c.items[id])
  {
    FindNoneIff(c, n, true);
    FindStoredUnderId(c, n, true);
  }

  // ---------------------------------------------------------------------------
  // Loading

  /** Storing an item under its id: a new id goes to the end of the order, a
      known one keeps its place and gets the new item. */
  function Store(c: Catalog, it: Item): Catalog {
    Catalog(c.items[it.id := it], if it.id in c.items then c.order else c.order + [it.id])
  }

  /** The cache after the rows are stored one after another, the first row first. */
  function LoadAll(c: Catalog, rows: seq<Row>): Catalog
    decreases |rows|
  {
    if |rows| == 0 then c
    else Store(LoadAll(c, rows[..|rows| - 1]), NewItem(rows[|rows| - 1]))
  }

  lemma StoreWellFormed(c: Catalog, it: Item)
    requires WellFormed(c)
    ensures WellFormed(Store(c, it))
  {
    var r := Store(c, it);
    if it.id !in c.items {
      forall i, j | 0 <= i < j < |r.order| ensures r.order[i] != r.order[j] {
        if j == |c.order| {
          assert r.order[i] == c.order[i];
        }
      }
    }
  }

  lemma {:induction false} LoadAllWellFormed(c: Catalog, rows: seq<Row>)
    requires WellFormed(c)
    ensures WellFormed(LoadAll(c, rows))
    decreases |rows|
  {
    if |rows| > 0 {
      LoadAllWellFormed(c, rows[..|rows| - 1]);
      StoreWellFormed(LoadAll(c, rows[..|rows| - 1]), NewItem(rows[|rows| - 1]));
    }
  }

  /** Each row ends up stored under its id unless a later row has the same id. */
  lemma {:induction false} LoadAllLastRowWins(c: Catalog, rows: seq<Row>, j: nat)
    requires j < |rows|
    requires forall k :: j < k < |rows| ==> rows[k].id != rows[j].id
    ensures rows[j].id in LoadAll(c, rows).items
    ensures LoadAll(c, rows).items[rows[j].id] == NewItem(rows[j])
    decreases |rows|
  {
    if j < |rows| - 1 {
      var front := rows[..|rows| - 1];
      assert front[j] == rows[j];
      LoadAllLastRowWins(c, front, j);
    }
  }

  /** An id that no row carries keeps whatever the cache held for it: the
      loader never clears the cache. */
  lemma {:induction false} LoadAllKeepsOthers(c: Catalog, rows: seq<Row>, id: int)
    requires forall k :: 0 <= k < |rows| ==> rows[k].id != id
    ensures id in LoadAll(c, rows).items <==> id in c.items
    ensures id in c.items ==> LoadAll(c, rows).items[id] == c.items[id]
    decreases |rows|
  {
    if |rows| > 0 {
      var front := rows[..|rows| - 1];
      assert forall k :: 0 <= k < |front| ==> front[k] == rows[k];
      LoadAllKeepsOthers(c, front, id);
      assert rows[|rows| - 1].id != id;
    }
  }

  /** Loading adds exactly the rows' ids and keeps the earlier insertion order. */
  lemma {:induction false} LoadAllKeysAndOrder(c: Catalog, rows: seq<Row>)
    ensures LoadAll(c, rows).items.Keys == c.items.Keys + (set k | 0 <= k < |rows| :: rows[k].id)
    ensures c.order <= LoadAll(c, rows).order
    decreases |rows|
  {
    if |rows| > 0 {
      var front := rows[..|rows| - 1];
      LoadAllKeysAndOrder(c, front);
      var s := set k | 0 <= k < |rows| :: rows[k].id;
      var sf := set k | 0 <= k < |front| :: front[k].id;
      assert forall k :: 0 <= k < |front| ==> front[k] == rows[k];
      assert s == sf + {rows[|rows| - 1].id} by {
        forall x | x in s ensures x in sf + {rows[|rows| - 1].id} {
          var k :| 0 <= k < |rows| && rows[k].id == x;
          if k < |front| { assert front[k].id == x; }
        }
      }
    }
  }

  /** The in-memory catalog of item definitions. */
  class ItemManager {
    const dbPath: string
    var items: map<int, Item>
    var order: seq<int>

    function Snapshot(): Catalog
      reads this
    {
      Catalog(items, order)
    }

    ghost predicate Valid()
      reads this
    {
      WellFormed(Snapshot())
    }

    constructor (dbPath: string)
      ensures Valid()
      ensures this.dbPath == dbPath && items == map[] && order == []
    {
      this.dbPath := dbPath;
      items := map[];
      order := [];
    }

    /** Stores every row of the items table under its id; `rows` is the result
        of the table query. */
    method LoadItemsFromDb(rows: seq<Row>)
      requires Valid()
      modifies this
      ensures Valid()
      ensures Snapshot() == LoadAll(old(Snapshot()), rows)
    {
      ghost var start := Snapshot();
      for i := 0 to |rows|
        invariant Valid()
        invariant Snapshot() == LoadAll(start, rows[..i])
      {
        var item := NewItem(rows[i]);
        StoreWellFormed(Snapshot(), item);
        if item.id !in items {
          order := order + [item.id];
        }
        items := items[item.id := item];
        assert rows[..i + 1][..i] == rows[..i];
      }
      assert rows[..|rows|] == rows;
    }

    /** The item stored under `id`, if any. */
    function GetItem(id: int): (r: Option<Item>)
      reads this
      ensures r.Some? <==> id in items
      ensures r.Some? ==> r.value == items[id]
    {
      if id in items then Some(items[id]) else None
    }

    /** The first item, in insertion order, whose lower-cased name equals the
        lower-cased query. */
    method GetItemByName(q: string) returns (r: Option<Item>)
      requires Valid()
      ensures r == ByName(Snapshot(), q)
      ensures r.Some? ==> r.value in items.Values && NameMatches(r.value, q)
      ensures r.None? <==> forall id :: id in items ==> !NameMatches(items[id], q)
    {
      FindNoneIff(Snapshot(), q, false);
      var i := 0;
      while i < |order|
        invariant 0 <= i <= |order|
        invariant forall j :: 0 <= j < i ==> !Hit(items, order[j], q, false)
      {
        var item := items[order[i]];
        if Lower(item.name) == Lower(q) {
          FindFirst(Snapshot(), q, false, i);
          return Some(item);
        }
        i := i + 1;
      }
      return None;
    }
  }
}
