/** The first world engine (src/engine.py), kept beside the core one: a
    map with only `@`, `G`, `>` and `R` markers, a bounds check instead of
    clamping, and a melee `delete` whose damage the original draws at
    random (here a parameter between 1 and 3). */
module LegacyEngine {
  import opened Util
  import opened Grid
  import Models

  /** A thing on the map: `type` is one of "player", "enemy", "rubble",
      "exit" (and, unused here, "lock", "key"). */
  datatype Entity = Entity(name: string, symbol: char, x: int, y: int, hp: int, maxHp: int, kind: string)
  {
    function At(): Models.Point {
      Models.Point(x, y)
    }
  }

  /** The log entries, by kind. */
  datatype Note =
    | Welcome
    | ObjectivesHint
    | InTheWay(name: string)
    | Strike(attacker: string, target: string, damage: int)
    | ClearedAway(name: string)
    | LevelComplete

  const InitialPlayer := Entity("Player", '@', 1, 1, 20, 20, "player")

  // ---------------------------------------------------------------------
  // Loading
  // ---------------------------------------------------------------------

  predicate IsMarker(c: char) {
    c == '@' || c == 'G' || c == '>' || c == 'R'
  }

  /** Every marker cell becomes floor; other cells are left alone. */
  function ClearedCell(c: char): (r: char)
    ensures IsMarker(c) ==> r == '.'
    ensures !IsMarker(c) ==> r == c
  {
    if IsMarker(c) then '.' else c
  }

  /** Which list a marker adds to. */
  datatype Roll = EnemyRoll | ItemRoll

  /** What cell `c` at (x, y) adds to the list `roll`. */
  function CellSpawns(c: char, x: int, y: int, roll: Roll): seq<Entity> {
    match roll
    case EnemyRoll =>
      if c == 'G' then [Entity("Goblin", 'G', x, y, 5, 5, "enemy")] else []
    case ItemRoll =>
      if c == '>' then [Entity("Exit", '>', x, y, 1, 1, "exit")]
      else if c == 'R' then [Entity("Rubble", 'R', x, y, 1, 1, "rubble")]
      else []
  }

  /** What the first `n` cells of row `y` add to `roll`. */
  function RowSpawns(row: string, y: int, n: nat, roll: Roll): seq<Entity>
    requires n <= |row|
    decreases n
  {
    if n == 0 then [] else RowSpawns(row, y, n - 1, roll) + CellSpawns(row[n - 1], n - 1, y, roll)
  }

  /** What the first `n` rows add to `roll`. */
  function GridSpawns(t: seq<string>, n: nat, roll: Roll): seq<Entity>
    requires n <= |t|
    decreases n
  {
    if n == 0 then [] else GridSpawns(t, n - 1, roll) + RowSpawns(t[n - 1], n - 1, |t[n - 1]|, roll)
  }

  /** Where the player stands after the first `n` cells of row `y`: the
      last `@` wins. */
  function RowPlayer(row: string, y: int, n: nat, p: Models.Point): Models.Point
    requires n <= |row|
    decreases n
  {
    if n == 0 then p
    else if row[n - 1] == '@' then Models.Point(n - 1, y)
    else RowPlayer(row, y, n - 1, p)
  }

  function GridPlayer(t: seq<string>, n: nat, p: Models.Point): Models.Point
    requires n <= |t|
    decreases n
  {
    if n == 0 then p else RowPlayer(t[n - 1], n - 1, |t[n - 1]|, GridPlayer(t, n - 1, p))
  }

  /** `g` is `t` with every marker cell turned into floor. */
  ghost predicate Cleared(g: Cells, t: seq<string>) {
    && |g| == |t|
    && (forall y :: 0 <= y < |t| ==> |g[y]| == |t[y]|)
    && (forall y, x :: 0 <= y < |t| && 0 <= x < |t[y]| ==> g[y][x] == ClearedCell(t[y][x]))
  }

  /** An entity spawned from a row sits on a cell of that row showing its
      own symbol, with full hit points: a Goblin 5, an exit or rubble 1. */
  lemma {:induction false} RowSpawnOnMarker(row: string, y: int, n: nat, roll: Roll, e: Entity)
    requires n <= |row| && e in RowSpawns(row, y, n, roll)
    ensures e.y == y && 0 <= e.x < n && row[e.x] == e.symbol && e.hp == e.maxHp
    ensures roll == EnemyRoll ==> e == Entity("Goblin", 'G', e.x, y, 5, 5, "enemy")
    ensures roll == ItemRoll ==> e.kind == "exit" || e.kind == "rubble"
    ensures e in CellSpawns(row[e.x], e.x, y, roll)
    decreases n
  {
    if e !in CellSpawns(row[n - 1], n - 1, y, roll) {
      RowSpawnOnMarker(row, y, n - 1, roll, e);
    }
  }

  /** Every loaded entity sits inside the template on a cell showing its
      own symbol. */
  lemma {:induction false} GridSpawnOnMarker(t: seq<string>, n: nat, roll: Roll, e: Entity)
    requires n <= |t| && e in GridSpawns(t, n, roll)
    ensures 0 <= e.y < n && 0 <= e.x < |t[e.y]| && t[e.y][e.x] == e.symbol && e.hp == e.maxHp
    ensures roll == EnemyRoll ==> e.kind == "enemy" && e.hp == 5
    ensures roll == ItemRoll ==> e.kind == "exit" || e.kind == "rubble"
    ensures e in CellSpawns(t[e.y][e.x], e.x, e.y, roll)
    decreases n
  {
    if e in GridSpawns(t, n - 1, roll) {
      GridSpawnOnMarker(t, n - 1, roll, e);
    } else {
      RowSpawnOnMarker(t[n - 1], n - 1, |t[n - 1]|, roll, e);
    }
  }

  /** Every marker cell among the first `n` of a row adds its entity. */
  lemma {:induction false} RowSpawnsComplete(row: string, y: int, n: nat, x: nat, roll: Roll, e: Entity)
    requires x < n <= |row| && e in CellSpawns(row[x], x, y, roll)
    ensures e in RowSpawns(row, y, n, roll)
    decreases n
  {
    var earlier := RowSpawns(row, y, n - 1, roll);
    if x < n - 1 {
      RowSpawnsComplete(row, y, n - 1, x, roll, e);
    }
    assert e in earlier + CellSpawns(row[n - 1], n - 1, y, roll);
  }

  /** Every marker cell of the first `n` rows adds its entity. */
  lemma {:induction false} GridSpawnsComplete(t: seq<string>, n: nat, y: nat, x: nat, roll: Roll, e: Entity)
    requires y < n <= |t| && x < |t[y]| && e in CellSpawns(t[y][x], x, y, roll)
    ensures e in GridSpawns(t, n, roll)
    decreases n
  {
    var earlier := GridSpawns(t, n - 1, roll);
    var row := RowSpawns(t[n - 1], n - 1, |t[n - 1]|, roll);
    if y < n - 1 {
      GridSpawnsComplete(t, n - 1, y, x, roll, e);
    } else {
      RowSpawnsComplete(t[n - 1], n - 1, |t[n - 1]|, x, roll, e);
    }
    assert e in earlier + row;
  }

  /** The loaded lists hold exactly what the template's marker cells add. */
  lemma SpawnedEntities(t: seq<string>, roll: Roll, e: Entity)
    ensures e in GridSpawns(t, |t|, roll) <==>
              exists y, x :: 0 <= y < |t| && 0 <= x < |t[y]| && e in CellSpawns(t[y][x], x, y, roll)
  {
    if e in GridSpawns(t, |t|, roll) {
      GridSpawnOnMarker(t, |t|, roll, e);
    }
    if exists y, x :: 0 <= y < |t| && 0 <= x < |t[y]| && e in CellSpawns(t[y][x], x, y, roll) {
      var y, x :| 0 <= y < |t| && 0 <= x < |t[y]| && e in CellSpawns(t[y][x], x, y, roll);
      GridSpawnsComplete(t, |t|, y, x, roll, e);
    }
  }

  /** Each `G` cell loads a five-hit-point Goblin, each `>` an exit and
      each `R` rubble, at that cell. */
  lemma MarkerSpawns(t: seq<string>, y: nat, x: nat)
    requires y < |t| && x < |t[y]|
    ensures t[y][x] == 'G' ==> Entity("Goblin", 'G', x, y, 5, 5, "enemy") in GridSpawns(t, |t|, EnemyRoll)
    ensures t[y][x] == '>' ==> Entity("Exit", '>', x, y, 1, 1, "exit") in GridSpawns(t, |t|, ItemRoll)
    ensures t[y][x] == 'R' ==> Entity("Rubble", 'R', x, y, 1, 1, "rubble") in GridSpawns(t, |t|, ItemRoll)
  {
    if t[y][x] == 'G' {
      GridSpawnsComplete(t, |t|, y, x, EnemyRoll, Entity("Goblin", 'G', x, y, 5, 5, "enemy"));
    } else if t[y][x] == '>' {
      GridSpawnsComplete(t, |t|, y, x, ItemRoll, Entity("Exit", '>', x, y, 1, 1, "exit"));
    } else if t[y][x] == 'R' {
      GridSpawnsComplete(t, |t|, y, x, ItemRoll, Entity("Rubble", 'R', x, y, 1, 1, "rubble"));
    }
  }

  /** The player ends on the last `@` of the first `n` rows in reading
      order, or stays where it was when there is none. */
  lemma {:induction false} PlayerOnMarker(t: seq<string>, n: nat, p: Models.Point)
    requires n <= |t|
    ensures var q := GridPlayer(t, n, p);
      (q == p && forall y, x :: 0 <= y < n && 0 <= x < |t[y]| ==> t[y][x] != '@') ||
      (0 <= q.y < n && 0 <= q.x < |t[q.y]| && t[q.y][q.x] == '@' &&
       (forall x :: q.x < x < |t[q.y]| ==> t[q.y][x] != '@') &&
       (forall y, x :: q.y < y < n && 0 <= x < |t[y]| ==> t[y][x] != '@'))
    decreases n
  {
    if n > 0 {
      PlayerOnMarker(t, n - 1, p);
      RowPlayerOnMarker(t[n - 1], n - 1, |t[n - 1]|, GridPlayer(t, n - 1, p));
    }
  }

  /** Within one row: the last `@` among the first `n` cells, or `p`
      when there is none. */
  lemma {:induction false} RowPlayerOnMarker(row: string, y: int, n: nat, p: Models.Point)
    requires n <= |row|
    ensures var q := RowPlayer(row, y, n, p);
      (q == p && forall x :: 0 <= x < n ==> row[x] != '@') ||
      (q.y == y && 0 <= q.x < n && row[q.x] == '@' && forall x :: q.x < x < n ==> row[x] != '@')
    decreases n
  {
    if n > 0 {
      RowPlayerOnMarker(row, y, n - 1, p);
    }
  }

  /** A rectangular template loads onto a map of its own size with every
      spawned entity on it, and, when it has an `@`, the player too. */
  lemma LoadedOnMap(g: Cells, t: seq<string>, p: Models.Point)
    requires Cleared(g, t) && Rectangular(t)
    ensures Sized(g, |t[0]|, |t|)
    ensures HasPlayerMarker(t) ==> InGrid(g, GridPlayer(t, |t|, p))
    ensures forall e :: e in GridSpawns(t, |t|, EnemyRoll) ==> InGrid(g, e.At())
    ensures forall e :: e in GridSpawns(t, |t|, ItemRoll) ==> InGrid(g, e.At())
  {
    PlayerOnMarker(t, |t|, p);
    forall e | e in GridSpawns(t, |t|, EnemyRoll) ensures InGrid(g, e.At()) {
      GridSpawnOnMarker(t, |t|, EnemyRoll, e);
    }
    forall e | e in GridSpawns(t, |t|, ItemRoll) ensures InGrid(g, e.At()) {
      GridSpawnOnMarker(t, |t|, ItemRoll, e);
    }
  }

  // ---------------------------------------------------------------------
  // Movement
  // ---------------------------------------------------------------------

  /** The first entity of `s` on cell (x, y). */
  function EntityAt(s: seq<Entity>, x: int, y: int): (r: Option<Entity>)
    ensures r.Some? ==> r.value in s && r.value.x == x && r.value.y == y
    ensures r.None? ==> forall i :: 0 <= i < |s| ==> !(s[i].x == x && s[i].y == y)
    decreases |s|
  {
    if s == [] then None
    else if s[0].x == x && s[0].y == y then Some(s[0])
    else EntityAt(s[1..], x, y)
  }

  /** Entities before the first one on the cell do not matter. */
  lemma {:induction false} EntityAtSkips(s: seq<Entity>, i: nat, x: int, y: int)
    requires i <= |s| && forall j :: 0 <= j < i ==> !(s[j].x == x && s[j].y == y)
    ensures EntityAt(s, x, y) == EntityAt(s[i..], x, y)
    decreases i
  {
    if i > 0 {
      EntityAtSkips(s[1..], i - 1, x, y);
      assert s[1..][i - 1..] == s[i..];
    }
  }

  /** The map is a rectangle whose recorded size is its own. */
  predicate Sized(g: Cells, w: int, h: int) {
    Rectangular(g) && w == |g[0]| && h == |g|
  }

  /** Why a walk stopped. */
  datatype Halt = Done | AtExit | BlockedBy(name: string) | OffMap | Wall

  /** The outcome of one step from (x, y): it stops the walk, or it lands
      on the floor cell (x + dx, y + dy). */
  datatype Stride = Stop(halt: Halt) | Onto(x: int, y: int)

  function StrideFrom(g: Cells, ents: seq<Entity>, w: int, h: int, x: int, y: int, dx: int, dy: int): (r: Stride)
    requires Sized(g, w, h)
    ensures r.Onto? ==> r.x == x + dx && r.y == y + dy && 0 <= r.y < h && 0 <= r.x < w && g[r.y][r.x] == '.'
    ensures r.Stop? ==> r.halt != Done
  {
    var nx, ny := x + dx, y + dy;
    if !(0 <= nx < w && 0 <= ny < h) then Stop(OffMap)
    else
      var target := EntityAt(ents, nx, ny);
      if target.Some? && target.value.kind == "exit" then Stop(AtExit)
      else if target.Some? && (target.value.kind == "enemy" || target.value.kind == "rubble") then
        Stop(BlockedBy(target.value.name))
      else if g[ny][nx] == '.' then Onto(nx, ny)
      else Stop(Wall)
  }

  /** Where `move_player(dx, dy, n)` leaves a player starting at (x, y),
      and why it stopped. */
  function Walk(g: Cells, ents: seq<Entity>, w: int, h: int, x: int, y: int, dx: int, dy: int, n: int): (Models.Point, Halt)
    requires Sized(g, w, h)
    decreases n
  {
    if n <= 0 then (Models.Point(x, y), Done)
    else match StrideFrom(g, ents, w, h, x, y, dx, dy)
      case Stop(halt) => (Models.Point(x, y), halt)
      case Onto(nx, ny) => Walk(g, ents, w, h, nx, ny, dx, dy, n - 1)
  }

  /** What a walk logs: one line for a blocked step, the level-complete
      line for the exit. */
  function WalkNotes(halt: Halt): (r: seq<Note>)
    ensures |r| <= 1
    ensures r == [] <==> !halt.BlockedBy? && halt != AtExit
  {
    match halt
    case BlockedBy(name) => [InTheWay(name)]
    case AtExit => [LevelComplete]
    case _ => []
  }

  /** The player only ever moves onto floor: a walk ends where it began or
      on a `.` cell inside the map, and never on an exit, enemy or rubble. */
  lemma {:induction false} WalkEndsOnFloor(g: Cells, ents: seq<Entity>, w: int, h: int, x: int, y: int, dx: int, dy: int, n: int)
    requires Sized(g, w, h)
    ensures var q := Walk(g, ents, w, h, x, y, dx, dy, n).0;
      q == Models.Point(x, y) || (0 <= q.y < h && 0 <= q.x < w && g[q.y][q.x] == '.')
    decreases n
  {
    if n > 0 {
      var stride := StrideFrom(g, ents, w, h, x, y, dx, dy);
      if stride.Onto? {
        WalkEndsOnFloor(g, ents, w, h, stride.x, stride.y, dx, dy, n - 1);
      }
    }
  }

  /** A walk never covers more than `n` steps of (dx, dy). */
  lemma {:induction false} WalkDistance(g: Cells, ents: seq<Entity>, w: int, h: int, x: int, y: int, dx: int, dy: int, n: int)
    requires Sized(g, w, h)
    ensures var q := Walk(g, ents, w, h, x, y, dx, dy, n).0;
      exists k :: 0 <= k <= (if n < 0 then 0 else n) && q == Models.Point(x + k * dx, y + k * dy)
    decreases n
  {
    if n > 0 && StrideFrom(g, ents, w, h, x, y, dx, dy).Onto? {
      WalkDistance(g, ents, w, h, x + dx, y + dy, dx, dy, n - 1);
      var q := Walk(g, ents, w, h, x, y, dx, dy, n).0;
      if q != Models.Point(x, y) {
        var k :| 0 <= k <= n - 1 && q == Models.Point(x + dx + k * dx, y + dy + k * dy);
        assert q == Models.Point(x + (k + 1) * dx, y + (k + 1) * dy);
      } else {
        assert q == Models.Point(x + 0 * dx, y + 0 * dy);
      }
    } else {
      assert Walk(g, ents, w, h, x, y, dx, dy, n).0 == Models.Point(x + 0 * dx, y + 0 * dy);
    }
  }

  // ---------------------------------------------------------------------
  // Delete and attack
  // ---------------------------------------------------------------------

  /** The index in `all` of the first entity within reach of the player
      and not equal to it. */
  function DeleteTarget(all: seq<Entity>, player: Entity): (r: Option<nat>)
    ensures r.Some? ==> r.value < |all| && Models.Near(all[r.value].At(), player.At()) && all[r.value] != player
    ensures r.Some? ==> forall j :: 0 <= j < r.value ==> !(Models.Near(all[j].At(), player.At()) && all[j] != player)
    ensures r.None? <==> forall j :: 0 <= j < |all| ==> !(Models.Near(all[j].At(), player.At()) && all[j] != player)
    decreases |all|
  {
    if all == [] then None
    else if Models.Near(all[0].At(), player.At()) && all[0] != player then Some(0)
    else match DeleteTarget(all[1..], player)
      case None => None
      case Some(i) => Some(i + 1)
  }

  /** Which list element an attack hits. */
  datatype Slot = InEnemies(i: nat) | InItems(i: nat)

  /** The slot of index `k` of `enemies + items`. */
  function SlotOf(k: nat, enemies: seq<Entity>): Slot {
    if k < |enemies| then InEnemies(k) else InItems(k - |enemies|)
  }

  predicate Holds(enemies: seq<Entity>, items: seq<Entity>, t: Slot) {
    match t
    case InEnemies(i) => i < |enemies|
    case InItems(i) => i < |items|
  }

  function VictimOf(enemies: seq<Entity>, items: seq<Entity>, t: Slot): Entity
    requires Holds(enemies, items, t)
  {
    match t
    case InEnemies(i) => enemies[i]
    case InItems(i) => items[i]
  }

  /** `attack`: the target loses `damage` hit points in place; at zero or
      below it leaves the enemy list if it is (equal to an element) there,
      else the interactable list. */
  function Struck(enemies: seq<Entity>, items: seq<Entity>, t: Slot, damage: int): (seq<Entity>, seq<Entity>)
    requires Holds(enemies, items, t)
  {
    var victim := VictimOf(enemies, items, t);
    var hit := victim.(hp := victim.hp - damage);
    var es := if t.InEnemies? then enemies[t.i := hit] else enemies;
    var its := if t.InItems? then items[t.i := hit] else items;
    if hit.hp > 0 then (es, its)
    else if hit in es then (RemoveFirst(es, hit), its)
    else if hit in its then (es, RemoveFirst(its, hit))
    else (es, its)
  }

  /** What `attack` logs. */
  function StrikeNotes(attacker: string, victim: Entity, damage: int): (r: seq<Note>)
    ensures |r| == (if victim.hp - damage <= 0 then 2 else 1)
    ensures r[0] == Strike(attacker, victim.name, damage)
  {
    [Strike(attacker, victim.name, damage)] + (if victim.hp - damage <= 0 then [ClearedAway(victim.name)] else [])
  }

  /** The target loses between one and three hit points; it survives in
      its place, or it is struck down and exactly one entity leaves the two
      lists: the target itself, from its own place in the list that holds it,
      when no earlier element (and, for an interactable, no enemy) equals it,
      with the other list unchanged. */
  lemma StruckOutcome(enemies: seq<Entity>, items: seq<Entity>, t: Slot, damage: int)
    requires Holds(enemies, items, t) && 1 <= damage <= 3
    ensures var victim := VictimOf(enemies, items, t);
      var r := Struck(enemies, items, t, damage);
      && (victim.hp - damage > 0 ==>
            Holds(r.0, r.1, t) && |r.0| == |enemies| && |r.1| == |items| &&
            victim.hp - 3 <= VictimOf(r.0, r.1, t).hp <= victim.hp - 1 &&
            VictimOf(r.0, r.1, t) == victim.(hp := victim.hp - damage) &&
            (forall j :: 0 <= j < |enemies| && t != InEnemies(j) ==> r.0[j] == enemies[j]) &&
            (forall j :: 0 <= j < |items| && t != InItems(j) ==> r.1[j] == items[j]))
      && (victim.hp - damage <= 0 ==> |r.0| + |r.1| == |enemies| + |items| - 1)
      && (victim.hp - damage <= 0 && t.InEnemies? &&
          (forall j :: 0 <= j < t.i ==> enemies[j] != victim.(hp := victim.hp - damage)) ==>
            r.0 == enemies[..t.i] + enemies[t.i + 1..] && r.1 == items)
      && (victim.hp - damage <= 0 && t.InItems? && victim.(hp := victim.hp - damage) !in enemies &&
          (forall j :: 0 <= j < t.i ==> items[j] != victim.(hp := victim.hp - damage)) ==>
            r.0 == enemies && r.1 == items[..t.i] + items[t.i + 1..])
  {
    var victim := VictimOf(enemies, items, t);
    var hit := victim.(hp := victim.hp - damage);
    if t.InEnemies? {
      var es := enemies[t.i := hit];
      assert es[t.i] == hit;
      if hit.hp <= 0 && forall j :: 0 <= j < t.i ==> enemies[j] != hit {
        RemoveFirstAt(es, t.i);
        assert es[..t.i] + es[t.i + 1..] == enemies[..t.i] + enemies[t.i + 1..];
      }
    } else {
      var its := items[t.i := hit];
      assert its[t.i] == hit;
      if hit.hp <= 0 && hit !in enemies && forall j :: 0 <= j < t.i ==> items[j] != hit {
        RemoveFirstAt(its, t.i);
        assert its[..t.i] + its[t.i + 1..] == items[..t.i] + items[t.i + 1..];
      }
    }
  }

  // ---------------------------------------------------------------------
  // Rendering
  // ---------------------------------------------------------------------

  /** What `get_render_data` draws, in order: the entities of `ents`, then
      the player. */
  function Overlay(ents: seq<Entity>, player: Entity): (r: seq<Mark>)
    ensures |r| == |ents| + 1
    ensures r[|ents|] == Mark(player.At(), player.symbol)
    ensures forall i :: 0 <= i < |ents| ==> r[i] == Mark(ents[i].At(), ents[i].symbol)
  {
    MarksOf(ents) + [Mark(player.At(), player.symbol)]
  }

  /** Each entity's symbol at its cell, in order. */
  function MarksOf(ents: seq<Entity>): (r: seq<Mark>)
    ensures |r| == |ents|
    ensures forall i :: 0 <= i < |ents| ==> r[i] == Mark(ents[i].At(), ents[i].symbol)
  {
    seq(|ents|, i requires 0 <= i < |ents| => Mark(ents[i].At(), ents[i].symbol))
  }

  /** The entity loop of `get_render_data`, writing into its copy of the map. */
  method DrawEntities(g: Cells, ents: seq<Entity>) returns (r: Cells)
    requires forall i :: 0 <= i < |ents| ==> InGrid(g, ents[i].At())
    ensures MarksInGrid(g, MarksOf(ents)) && r == Paint(g, MarksOf(ents))
  {
    var marks := MarksOf(ents);
    r := g;
    for i := 0 to |ents|
      invariant r == Paint(g, marks[..i])
    {
      var e := ents[i];
      assert marks[..i + 1][..i] == marks[..i];
      r := r[e.y := r[e.y][e.x := e.symbol]];
    }
    assert marks[..|ents|] == marks;
  }

  /** The player's symbol is what shows on the player's cell. */
  lemma RenderShowsPlayer(g: Cells, ents: seq<Entity>, player: Entity)
    requires MarksInGrid(g, Overlay(ents, player)) && InGrid(g, player.At())
    ensures Paint(g, Overlay(ents, player))[player.y][player.x] == player.symbol
  {
    PaintAt(g, Overlay(ents, player), player.At());
  }

  // ---------------------------------------------------------------------
  // The engine
  // ---------------------------------------------------------------------

  class GameEngine {
    var currentLevel: Option<Models.LevelConfig>
    var player: Entity
    var enemies: seq<Entity>
    var interactables: seq<Entity>
    var mapData: Cells
    var width: int
    var height: int
    var messages: seq<Note>
    var levelComplete: bool

    ghost predicate Valid()
      reads this
    {
      |messages| <= MaxMessages
    }

    /** A level is loaded and every entity and the player are on the map. */
    ghost predicate Drawable()
      reads this
    {
      && Sized(mapData, width, height)
      && InGrid(mapData, player.At())
      && (forall i :: 0 <= i < |enemies| ==> InGrid(mapData, enemies[i].At()))
      && (forall i :: 0 <= i < |interactables| ==> InGrid(mapData, interactables[i].At()))
    }

    constructor ()
      ensures Valid()
      ensures currentLevel == None && player == InitialPlayer
      ensures enemies == [] && interactables == [] && mapData == []
      ensures messages == [Welcome, ObjectivesHint] && !levelComplete
    {
      currentLevel := None;
      player := InitialPlayer;
      enemies, interactables := [], [];
      mapData := [];
      width, height := 0, 0;
      messages := [Welcome, ObjectivesHint];
      levelComplete := false;
    }

    /** `load_level`: copy the template, reset the lists and scan every
        cell: `@` moves the player, `G` adds a Goblin, `>` an exit and `R`
        rubble, and each of these cells becomes floor. */
    method LoadLevel(level: Models.LevelConfig)
      requires |level.mapTemplate| > 0
      modifies this`currentLevel, this`mapData, this`width, this`height
      modifies this`enemies, this`interactables, this`levelComplete, this`player
      ensures currentLevel == Some(level)
      ensures Cleared(mapData, level.mapTemplate)
      ensures height == |level.mapTemplate| && width == |level.mapTemplate[0]|
      ensures enemies == GridSpawns(level.mapTemplate, |level.mapTemplate|, EnemyRoll)
      ensures interactables == GridSpawns(level.mapTemplate, |level.mapTemplate|, ItemRoll)
      ensures var p := GridPlayer(level.mapTemplate, |level.mapTemplate|, old(player).At());
        player == old(player).(x := p.x, y := p.y)
      ensures !levelComplete
      ensures Rectangular(level.mapTemplate) && HasPlayerMarker(level.mapTemplate) ==> Drawable()
    {
      var t := level.mapTemplate;
      var grid, foes, items, at := ScanGrid(t, player.At());
      if Rectangular(t) {
        LoadedOnMap(grid, t, player.At());
      }
      currentLevel, height, width, levelComplete := Some(level), |t|, |t[0]|, false;
      mapData, enemies, interactables, player := grid, foes, items, player.(x := at.x, y := at.y);
    }

    /** `get_entity_at(x, y)`: the first enemy, else the first interactable,
        on that cell. */
    method GetEntityAt(x: int, y: int) returns (r: Option<Entity>)
      ensures r == EntityAt(enemies + interactables, x, y)
    {
      var all := enemies + interactables;
      var i := 0;
      while i < |all| && !(all[i].x == x && all[i].y == y)
        invariant 0 <= i <= |all|
        invariant forall j :: 0 <= j < i ==> !(all[j].x == x && all[j].y == y)
      {
        i := i + 1;
      }
      EntityAtSkips(all, i, x, y);
      if i < |all| {
        return Some(all[i]);
      }
      return None;
    }

    /** `add_message`: append, then drop the oldest entry past ten. */
    method AddMessage(m: Note)
      modifies this`messages
      ensures messages == Logged(old(messages), m)
    {
      messages := messages + [m];
      if |messages| > MaxMessages {
        messages := messages[1..];
      }
    }

    /** `complete_level`: one message, and the level is complete. */
    method CompleteLevel()
      modifies this`messages, this`levelComplete
      ensures messages == Logged(old(messages), LevelComplete) && levelComplete
    {
      AddMessage(LevelComplete);
      levelComplete := true;
    }

    /** `move_player`: up to `count` steps of (dx, dy). A step off the map
        or into a wall stops silently; the exit completes the level and an
        enemy or rubble is reported, and both stop the walk. */
    method MovePlayer(dx: int, dy: int, count: int)
      requires Valid() && Sized(mapData, width, height)
      modifies this`player, this`messages, this`levelComplete
      ensures Valid()
      ensures var w := Walk(mapData, enemies + interactables, width, height, old(player.x), old(player.y), dx, dy, count);
        && player == old(player).(x := w.0.x, y := w.0.y)
        && levelComplete == (old(levelComplete) || w.1 == AtExit)
        && messages == LoggedAll(old(messages), WalkNotes(w.1))
    {
      var pos, halt := WalkPlayer(dx, dy, count);
      player := player.(x := pos.x, y := pos.y);
      if halt == AtExit {
        CompleteLevel();
      } else if halt.BlockedBy? {
        AddMessage(InTheWay(halt.name));
      }
      var notes := WalkNotes(halt);
      if notes != [] {
        assert notes[1..] == [];
      }
    }

    /** The step loop of `move_player`, run on a local copy of the
        player's coordinates. */
    method WalkPlayer(dx: int, dy: int, count: int) returns (pos: Models.Point, halt: Halt)
      requires Sized(mapData, width, height)
      ensures (pos, halt) == Walk(mapData, enemies + interactables, width, height, player.x, player.y, dx, dy, count)
    {
      ghost var all := enemies + interactables;
      pos := player.At();
      halt := Done;
      var i := 0;
      while i < count && halt == Done
        invariant 0 <= i && (0 <= count ==> i <= count)
        invariant halt == Done ==>
          Walk(mapData, all, width, height, player.x, player.y, dx, dy, count) ==
          Walk(mapData, all, width, height, pos.x, pos.y, dx, dy, count - i)
        invariant halt != Done ==>
          Walk(mapData, all, width, height, player.x, player.y, dx, dy, count) == (pos, halt)
        decreases count - i, if halt == Done then 1 else 0
      {
        var stride := Probe(pos.x, pos.y, dx, dy);
        match stride {
          case Stop(h) => halt := h;
          case Onto(nx, ny) =>
            pos := Models.Point(nx, ny);
            i := i + 1;
        }
      }
    }

    /** One step of the walk: the bounds check, then what is at the target
        cell. */
    method Probe(x: int, y: int, dx: int, dy: int) returns (stride: Stride)
      requires Sized(mapData, width, height)
      ensures stride == StrideFrom(mapData, enemies + interactables, width, height, x, y, dx, dy)
    {
      var newX, newY := x + dx, y + dy;
      if 0 <= newX < width && 0 <= newY < height {
        var target := GetEntityAt(newX, newY);
        if target.Some? && target.value.kind == "exit" {
          stride := Stop(AtExit);
        } else if target.Some? && (target.value.kind == "enemy" || target.value.kind == "rubble") {
          stride := Stop(BlockedBy(target.value.name));
        } else if mapData[newY][newX] == '.' {
          stride := Onto(newX, newY);
        } else {
          stride := Stop(Wall);
        }
      } else {
        stride := Stop(OffMap);
      }
    }

    /** `perform_action`: only "delete" does anything; it attacks the first
        entity within reach (enemies before interactables), if any, with
        the damage the original rolls between 1 and 3. */
    method PerformAction(action: string, damage: int)
      requires Valid() && 1 <= damage <= 3
      modifies this`enemies, this`interactables, this`messages
      ensures Valid()
      ensures var k := DeleteTarget(old(enemies + interactables), player);
        if action != "delete" || k.None? then
          enemies == old(enemies) && interactables == old(interactables) && messages == old(messages)
        else
          var t := SlotOf(k.value, old(enemies));
          && Holds(old(enemies), old(interactables), t)
          && (enemies, interactables) == Struck(old(enemies), old(interactables), t, damage)
          && messages == LoggedAll(old(messages), StrikeNotes(player.name, VictimOf(old(enemies), old(interactables), t), damage))
    {
      if action == "delete" {
        var all := enemies + interactables;
        var k := FirstTarget(all);
        if k.Some? {
          var t := SlotOf(k.value, enemies);
          assert VictimOf(enemies, interactables, t) == all[k.value];
          Attack(player, t, damage);
        }
      }
    }

    /** The list comprehension of `perform_action`, cut at its first
        element. */
    method FirstTarget(all: seq<Entity>) returns (k: Option<nat>)
      ensures k == DeleteTarget(all, player)
    {
      var i := 0;
      while i < |all| && !(Models.Near(all[i].At(), player.At()) && all[i] != player)
        invariant 0 <= i <= |all|
        invariant forall j :: 0 <= j < i ==> !(Models.Near(all[j].At(), player.At()) && all[j] != player)
      {
        i := i + 1;
      }
      k := if i < |all| then Some(i) else None;
    }

    /** `attack(attacker, target)` with the damage given. */
    method Attack(attacker: Entity, target: Slot, damage: int)
      requires Valid() && Holds(enemies, interactables, target)
      modifies this`enemies, this`interactables, this`messages
      ensures Valid()
      ensures (enemies, interactables) == Struck(old(enemies), old(interactables), target, damage)
      ensures messages == LoggedAll(old(messages), StrikeNotes(attacker.name, VictimOf(old(enemies), old(interactables), target), damage))
    {
      var victim := VictimOf(enemies, interactables, target);
      var hit := victim.(hp := victim.hp - damage);
      var es, its := enemies, interactables;
      if target.InEnemies? {
        es := es[target.i := hit];
      } else {
        its := its[target.i := hit];
      }
      AddMessage(Strike(attacker.name, hit.name, damage));
      LoggedAllSingle(old(messages), Strike(attacker.name, hit.name, damage));
      if hit.hp <= 0 {
        AddMessage(ClearedAway(hit.name));
        LoggedAllSnoc(old(messages), [Strike(attacker.name, hit.name, damage)], ClearedAway(hit.name));
        if hit in es {
          es := RemoveFirst(es, hit);
        } else if hit in its {
          its := RemoveFirst(its, hit);
        }
      }
      enemies, interactables := es, its;
    }

    /** `get_render_data`: a copy of the map with interactables, then
        enemies, then the player drawn over it. Nothing changes. */
    method GetRenderData() returns (r: Cells)
      requires Drawable()
      ensures MarksInGrid(mapData, Overlay(interactables + enemies, player))
      ensures r == Paint(mapData, Overlay(interactables + enemies, player))
      ensures SameShape(r, mapData) && r[player.y][player.x] == player.symbol
    {
      var all := interactables + enemies;
      assert forall i :: 0 <= i < |all| ==> InGrid(mapData, all[i].At()) by {
        forall i | 0 <= i < |all| ensures InGrid(mapData, all[i].At()) {
          if i >= |interactables| { assert all[i] == enemies[i - |interactables|]; }
        }
      }
      r := DrawEntities(mapData, all);
      r := r[player.y := r[player.y][player.x := player.symbol]];
      var marks := Overlay(all, player);
      assert marks[..|marks| - 1] == MarksOf(all);
      RenderShowsPlayer(mapData, all, player);
    }
  }

  /** The scan of `load_level`, row by row. */
  method ScanGrid(t: seq<string>, at0: Models.Point) returns (grid: Cells, foes: seq<Entity>, items: seq<Entity>, at: Models.Point)
    ensures Cleared(grid, t)
    ensures foes == GridSpawns(t, |t|, EnemyRoll)
    ensures items == GridSpawns(t, |t|, ItemRoll)
    ensures at == GridPlayer(t, |t|, at0)
  {
    grid, foes, items, at := t, [], [], at0;
    for y := 0 to |t|
      invariant |grid| == |t|
      invariant forall r :: 0 <= r < |t| ==> |grid[r]| == |t[r]|
      invariant forall r, x :: 0 <= r < y && 0 <= x < |t[r]| ==> grid[r][x] == ClearedCell(t[r][x])
      invariant forall r :: y <= r < |t| ==> grid[r] == t[r]
      invariant foes == GridSpawns(t, y, EnemyRoll)
      invariant items == GridSpawns(t, y, ItemRoll)
      invariant at == GridPlayer(t, y, at0)
    {
      var row;
      row, foes, items, at := ScanRow(grid[y], y, foes, items, at);
      grid := grid[y := row];
    }
  }

  /** The inner loop of `load_level` over row `y`. */
  method ScanRow(row0: string, y: int, foes0: seq<Entity>, items0: seq<Entity>, at0: Models.Point)
    returns (row: string, foes: seq<Entity>, items: seq<Entity>, at: Models.Point)
    ensures |row| == |row0|
    ensures forall x :: 0 <= x < |row| ==> row[x] == ClearedCell(row0[x])
    ensures foes == foes0 + RowSpawns(row0, y, |row0|, EnemyRoll)
    ensures items == items0 + RowSpawns(row0, y, |row0|, ItemRoll)
    ensures at == RowPlayer(row0, y, |row0|, at0)
  {
    row, foes, items, at := row0, foes0, items0, at0;
    for x := 0 to |row0|
      invariant |row| == |row0|
      invariant forall x' :: 0 <= x' < x ==> row[x'] == ClearedCell(row0[x'])
      invariant forall x' :: x <= x' < |row| ==> row[x'] == row0[x']
      invariant foes == foes0 + RowSpawns(row0, y, x, EnemyRoll)
      invariant items == items0 + RowSpawns(row0, y, x, ItemRoll)
      invariant at == RowPlayer(row0, y, x, at0)
    {
      var c := row[x];
      if c == '@' {
        at := Models.Point(x, y);
        row := row[x := '.'];
      } else if c == 'G' {
        foes := foes + [Entity("Goblin", 'G', x, y, 5, 5, "enemy")];
        row := row[x := '.'];
      } else if c == '>' {
        items := items + [Entity("Exit", '>', x, y, 1, 1, "exit")];
        row := row[x := '.'];
      } else if c == 'R' {
        items := items + [Entity("Rubble", 'R', x, y, 1, 1, "rubble")];
        row := row[x := '.'];
      }
    }
  }
}
