/** The map the game commands read: the locations table, the directed
    map_connections between them and the monsters each location spawns, with
    the rules of the move command. */
module World {
  import opened Wrappers

  /** A locations row; `actions` is NULL or the decoded JSON list of actions. */
  datatype Location = Location(id: int, name: string, description: string, actions: Option<seq<string>>)

  datatype WorldMap = WorldMap(
    locations: seq<Location>,
    edges: set<(int, int)>,
    spawns: map<int, seq<string>>)

  /** The first location with that name (names are unique in the table). */
  function FirstNamed(ls: seq<Location>, name: string): (r: Option<Location>)
    ensures r.Some? ==> r.value in ls && r.value.name == name
    ensures r.None? <==> forall l :: l in ls ==> l.name != name
    decreases |ls|
  {
    if |ls| == 0 then None
    else if ls[0].name == name then Some(ls[0])
    else FirstNamed(ls[1..], name)
  }

  /** The first location with that id. `move` looks a location up by name and
      `do_action` by the player's location id, so the two keys have a lookup
      each. */
  function FirstWithId(ls: seq<Location>, id: int): (r: Option<Location>)
    ensures r.Some? ==> r.value in ls && r.value.id == id
    ensures r.None? <==> forall l :: l in ls ==> l.id != id
    decreases |ls|
  {
    if |ls| == 0 then None
    else if ls[0].id == id then Some(ls[0])
    else FirstWithId(ls[1..], id)
  }

  /** The monster names a location spawns; none for a location without rows. */
  function MonstersAt(w: WorldMap, id: int): seq<string> {
    if id in w.spawns then w.spawns[id] else []
  }

  // ---------------------------------------------------------------------------
  // move

  datatype MoveOutcome = UnknownDestination | NoConnection | Moved(to: int)

  /** Moving from `from` (absent for a player without a row) to the location named
      `destination`: it must exist and a connection must lead there. */
  function Move(w: WorldMap, from: Option<int>, destination: string): (r: MoveOutcome)
    ensures r.UnknownDestination? <==> forall l :: l in w.locations ==> l.name != destination
    ensures r.Moved? <==>
      exists l :: l in w.locations && l.name == destination && from.Some? && (from.value, l.id) in w.edges
        && l == FirstNamed(w.locations, destination).value
    ensures r.Moved? ==> exists l :: l in w.locations && l.name == destination && l.id == r.to
    ensures r.Moved? ==> from.Some? && (from.value, r.to) in w.edges
  {
    match FirstNamed(w.locations, destination)
    case None => UnknownDestination
    case Some(l) =>
      if from.Some? && (from.value, l.id) in w.edges then Moved(l.id) else NoConnection
  }

  // ---------------------------------------------------------------------------
  // The seeded map of database.py

  const Meadow := "평온한 초원"
  const EastForest := "동쪽 숲"
  const OldRuins := "오래된 폐허"
  const Riverside := "강가"
  const DarkCave := "어두운 동굴"

  function SeedWorld(): WorldMap {
    WorldMap(
      [ Location(1, Meadow, "부드러운 바람이 불어오는 시작의 장소입니다. 저 멀리 숲이 보입니다.",
                 Some(["덤불 살피기", "나무 올라가기"])),
        Location(2, EastForest, "나무가 빽빽하게 들어서 있어 어둡고 습합니다. 약한 몬스터들이 주로 나타납니다.",
                 Some(["수풀 헤치기", "버섯 채집"])),
        Location(3, OldRuins, "과거에 무슨 일이 있었는지, 스산한 기운이 감도는 곳입니다. 강력한 몬스터가 있다는 소문이 있습니다.",
                 Some(["문 두드리기", "잔해 뒤지기"])),
        Location(4, Riverside, "맑은 물이 흐르는 강가입니다. 물고기가 뛰어노는 모습이 보입니다.",
                 Some(["낚시하기", "물 마시기"])),
        Location(5, DarkCave, "음침하고 습한 동굴입니다. 위험한 몬스터들이 서식합니다.",
                 Some(["탐색하기", "광물 채집"])) ],
      {(1, 2), (2, 1), (2, 3), (3, 2), (1, 4), (4, 1), (3, 5), (5, 3)},
      map[2 := ["슬라임", "고블린"], 3 := ["고블린", "오크"], 4 := ["늑대"], 5 := ["거미", "오크"]])
  }

  /** Every seeded connection can be walked back. */
  lemma SeedEdgesAreSymmetric()
    ensures forall a, b :: (a, b) in SeedWorld().edges ==> (b, a) in SeedWorld().edges
  {
  }

  /** The meadow leads to the river bank but not to the cave, which is reached
      from the ruins; an unknown name and a player without a row go nowhere. */
  lemma SeedMoves()
    ensures Move(SeedWorld(), Some(1), Riverside) == Moved(4)
    ensures Move(SeedWorld(), Some(1), DarkCave) == NoConnection
    ensures Move(SeedWorld(), Some(3), DarkCave) == Moved(5)
    ensures Move(SeedWorld(), Some(1), "용의 둥지") == UnknownDestination
    ensures Move(SeedWorld(), None, EastForest) == NoConnection
  {
    var w := SeedWorld();
    var cave := w.locations[4];
    assert FirstNamed(w.locations, DarkCave) == Some(cave) by {
      assert w.locations[1..][1..][1..][1..][0] == cave;
    }
    assert (1, 5) !in w.edges;
  }
}
