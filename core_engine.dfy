/** The world engine of src/core/engine.py: one object that owns the map,
    the player, the enemy and interactable lists, the registers and the
    message log, and whose methods change them in place. */
module CoreEngine {
  import opened Util
  import opened Models
  import opened Grid
  import opened CoreRules


  /** `params.get("reg", '"')`: the named register, or the unnamed one. */
  function RegisterParam(params: map<string, string>): (r: string)
    ensures "reg" !in params ==> r == "\""
    ensures "reg" in params ==> r == params["reg"]
  {
    if "reg" in params then params["reg"] else "\""
  }


  class GameEngine {
    var mode: GameMode
    var currentLevelIndex: int
    var currentLevel: Option<LevelConfig>
    var player: Entity
    var enemies: seq<Entity>
    var interactables: seq<Entity>
    var mapData: Cells
    var width: int
    var height: int
    var messages: seq<Message>
    var levelComplete: bool
    var keystrokeCount: int
    var registers: map<string, char>
    var auraActive: bool
    var lastMoveEfficient: bool

    /** The invariant every operation keeps: the log holds at most ten
        entries, `last_move_efficient` is never set, and every key and lock
        carries its letter. */
    ghost predicate Valid()
      reads this
    {
      |messages| <= MaxMessages && !lastMoveEfficient && WellTagged(interactables)
    }

    /** What movement and rendering consult. */
    function Scene(): Board
      reads this
    {
      Board(mapData, enemies + interactables)
    }

    /** A level with a player marker is loaded (see `Settled`). */
    ghost predicate Playable()
      reads this
    {
      Settled(mapData, width, height, player.position, enemies, interactables)
    }

    constructor ()
      ensures Valid()
      ensures mode == Normal && currentLevelIndex == 0 && currentLevel == None
      ensures player == Entity("Player", '@', Point(1, 1), 20, 20, Player, false, None)
      ensures enemies == [] && interactables == [] && mapData == []
      ensures messages == [Online] && !levelComplete && keystrokeCount == 0
      ensures registers == map[] && !auraActive && !lastMoveEfficient
    {
      mode := Normal;
      currentLevelIndex := 0;
      currentLevel := None;
      player := Entity("Player", '@', Point(1, 1), 20, 20, Player, false, None);
      enemies := [];
      interactables := [];
      mapData := [];
      width, height := 0, 0;
      messages := [Online];
      levelComplete := false;
      keystrokeCount := 0;
      registers := map[];
      auraActive := false;
      lastMoveEfficient := false;
    }

    /** `load_level`: copy the template, reset the per-level state and scan
        the cells row by row, spawning entities and turning every marker
        cell into floor. */
    method LoadLevel(config: LevelConfig)
      requires Valid() && Rectangular(config.mapTemplate)
      modifies this`currentLevel, this`mapData, this`width, this`height, this`enemies, this`interactables
      modifies this`player, this`levelComplete, this`keystrokeCount, this`mode, this`auraActive
      ensures Valid()
      ensures currentLevel == Some(config)
      ensures Cleared(mapData, config.mapTemplate)
      ensures height == |config.mapTemplate| && width == |config.mapTemplate[0]|
      ensures enemies == GridSpawns(config.mapTemplate, |config.mapTemplate|, Enemies)
      ensures interactables == GridSpawns(config.mapTemplate, |config.mapTemplate|, Interactables)
      ensures player == old(player).(position := GridPlayer(config.mapTemplate, |config.mapTemplate|, old(player.position)))
      ensures !levelComplete && keystrokeCount == 0 && mode == Normal && !auraActive
      ensures HasPlayerMarker(config.mapTemplate) ==> Playable()
    {
      var t := config.mapTemplate;
      var grid, foes, items, at := ScanGrid(t, player.position);
      ScanSettles(t, grid, foes, items, at, player.position);
      currentLevel, height, width := Some(config), |t|, |t[0]|;
      levelComplete, keystrokeCount, mode, auraActive := false, 0, Normal, false;
      mapData, enemies, interactables, player := grid, foes, items, player.(position := at);
    }

    /** `get_entity_at`: the first enemy, else the first interactable, on
        cell `p`. */
    method GetEntityAt(p: Point) returns (r: Option<Entity>)
      ensures r == EntityAt(enemies + interactables, p)
    {
      var all := enemies + interactables;
      var i := 0;
      while i < |all|
        invariant 0 <= i <= |all|
        invariant NoHitBefore(all, At(p), i)
      {
        if all[i].position == p {
          return Some(all[i]);
        }
        i := i + 1;
      }
      return None;
    }

    /** `add_message`: append, then drop the oldest entry past ten. */
    method AddMessage(m: Message)
      modifies this`messages
      ensures messages == Logged(old(messages), m)
      ensures |old(messages)| <= MaxMessages ==> |messages| <= MaxMessages
    {
      messages := messages + [m];
      if |messages| > MaxMessages {
        messages := messages[1..];
      }
    }

    /** `complete_level`: idempotently raise the completion flag. */
    method CompleteLevel()
      modifies this`levelComplete
      ensures levelComplete
    {
      levelComplete := true;
    }

    /** `move_player(dx, dy, count)`: up to `count` clamped steps, stopping
        at an exit (which completes the level), at a blocking entity or at a
        wall. The map and the entity lists never change, and the player ends
        on a floor cell inside the grid. */
    method MovePlayer(dx: int, dy: int, count: int)
      requires Valid() && Playable()
      modifies this`auraActive, this`player, this`messages, this`levelComplete
      ensures Valid() && Playable()
      ensures auraActive == (count > 1)
      ensures var w := Walk(old(Scene()), old(player.position), dx, dy, count);
        && player == old(player).(position := w.0)
        && levelComplete == (old(levelComplete) || w.1 == ReachedExit)
        && messages == LoggedAll(old(messages), WalkMessages(w.1))
    {
      auraActive := (count > 1) || lastMoveEfficient;
      // The steps only read the map and the entities; the player's cell is
      // written back, and the reason for stopping acted on, once the walk
      // ends, which is what the step-by-step writes of the loop amount to.
      var pos, end := WalkPlayer(dx, dy, count);
      player := player.(position := pos);
      StopWalk(end);
    }

    /** How `move_player` acts on the reason its loop stopped: an exit
        completes the level, an obstacle or a wall is logged. */
    method StopWalk(end: WalkEnd)
      requires |messages| <= MaxMessages
      modifies this`messages, this`levelComplete
      ensures levelComplete == (old(levelComplete) || end == ReachedExit)
      ensures messages == LoggedAll(old(messages), WalkMessages(end))
      ensures |messages| <= MaxMessages
    {
      if end == ReachedExit {
        CompleteLevel();
      } else if end.BlockedBy? {
        AddMessage(PathBlocked(end.name));
      } else if end == Collided {
        AddMessage(CollidedWithBoundary);
      }
      LoggedAllOne(old(messages), end);
    }

    /** The loop of `move_player`: where the player's walk ends and why. */
    method WalkPlayer(dx: int, dy: int, count: int) returns (pos: Point, end: WalkEnd)
      requires Scene().Playable() && width == |mapData[0]| && height == |mapData|
      requires OnFloor(mapData, player.position)
      ensures (pos, end) == Walk(Scene(), player.position, dx, dy, count)
      ensures OnFloor(mapData, pos)
    {
      ghost var b := Scene();
      pos := player.position;
      end := Exhausted;
      var i := 0;
      while i < count && end == Exhausted
        invariant 0 <= i && (0 <= count ==> i <= count)
        invariant OnFloor(mapData, pos)
        invariant end == Exhausted ==> Walk(b, player.position, dx, dy, count) == Walk(b, pos, dx, dy, count - i)
        invariant end != Exhausted ==> Walk(b, player.position, dx, dy, count) == (pos, end)
        decreases count - i, if end == Exhausted then 1 else 0
      {
        var step := Probe(pos, dx, dy);
        match step {
          case ToExit => end := ReachedExit;
          case Obstacle(name) => end := BlockedBy(name);
          case Wall => end := Collided;
          case MovedTo(q) =>
            pos := q;
            i := i + 1;
        }
      }
    }

    /** One step of the walk: the clamped target cell, then what is there. */
    method Probe(pos: Point, dx: int, dy: int) returns (step: StepOutcome)
      requires Scene().Playable() && width == |mapData[0]| && height == |mapData|
      ensures step == StepFrom(Scene(), pos, dx, dy)
      ensures step.MovedTo? ==> OnFloor(mapData, step.q)
    {
      var newX := Clamp(pos.x + dx, 0, width - 1);
      var newY := Clamp(pos.y + dy, 0, height - 1);
      var newPosition := Point(newX, newY);
      assert newPosition == Target(Scene(), pos, dx, dy);

      var target := GetEntityAt(newPosition);
      if target.Some? && target.value.kind == Exit {
        step := ToExit;
      } else if target.Some? && Blocking(target.value.kind) {
        step := Obstacle(target.value.name);
      } else if mapData[newY][newX] == '.' {
        step := MovedTo(newPosition);
      } else {
        step := Wall;
      }
    }

    /** `handle_yank`. */
    method HandleYank(params: map<string, string>)
      requires Valid()
      modifies this`registers, this`interactables, this`messages
      ensures Valid()
      ensures (registers, interactables, messages) ==
              Yank(old(registers), old(interactables), player.position, RegisterParam(params), old(messages))
    {
      var register := RegisterParam(params);
      var at := player.position;
      var items := interactables;
      assert WellTagged(items);
      // The scan stops at the first key within reach, which is then taken.
      var i := 0;
      while i < |items| && !(items[i].kind == Key && Near(items[i].position, at))
        invariant 0 <= i <= |items|
        invariant NoHitBefore(items, NearKind(Key, at), i)
      {
        i := i + 1;
      }
      if i < |items| {
        var entity := items[i];
        FirstHitIs(items, NearKind(Key, at), i);
        RemoveFirstAt(items, i);
        WellTaggedAfterRemoval(items, i);
        registers := registers[register := entity.reg.value];
        AddMessage(Yanked(entity.name, register));
        interactables := RemoveFirst(items, entity);
        return;
      }
      AddMessage(NothingToYank);
    }

    /** `handle_put`. */
    method HandlePut(params: map<string, string>)
      requires Valid()
      modifies this`interactables, this`messages
      ensures Valid()
      ensures (interactables, messages) ==
              Put(registers, old(interactables), player.position, RegisterParam(params), old(messages))
    {
      var register := RegisterParam(params);
      if register !in registers {
        AddMessage(RegisterEmpty(register));
        return;
      }
      var value := registers[register];
      var at := player.position;
      var items := interactables;
      var i := ScanLocks(items, at, register, value);
      LoggedAllKeepsNewest(old(messages), Mismatches(items[..i], at, register));
      if i < |items| {
        var entity := items[i];
        FirstHitIs(items, Opens(at, value), i);
        RemoveFirstAt(items, i);
        WellTaggedAfterRemoval(items, i);
        LoggedAllSnoc(old(messages), Mismatches(items[..i], at, register), AccessGranted(value));
        AddMessage(AccessGranted(entity.reg.value));
        interactables := RemoveFirst(items, entity);
      } else {
        assert items[..i] == items;
      }
    }

    /** The loop of `handle_put`: every lock within reach that the register
        does not open logs a failure, until the first one it opens, whose
        index comes back (`|items|` when there is none). */
    method ScanLocks(items: seq<Entity>, at: Point, register: string, value: char) returns (i: nat)
      requires WellTagged(items)
      modifies this`messages
      ensures i <= |items| && NoHitBefore(items, Opens(at, value), i)
      ensures i < |items| ==> Hits(items[i], Opens(at, value))
      ensures messages == LoggedAll(old(messages), Mismatches(items[..i], at, register))
    {
      i := 0;
      while i < |items| && !Hits(items[i], Opens(at, value))
        invariant 0 <= i <= |items|
        invariant NoHitBefore(items, Opens(at, value), i)
        invariant messages == LoggedAll(old(messages), Mismatches(items[..i], at, register))
      {
        var entity := items[i];
        ScanLocksStep(old(messages), items, i, at, register);
        if Hits(entity, NearKind(Lock, at)) {
          AddMessage(KeyMismatch(register, entity.reg.GetOr(entity.symbol)));
        }
        i := i + 1;
      }
    }

    /** `handle_regex_attack`: a command without the substitution pattern
        is rejected; otherwise the purge runs. */
    method HandleRegexAttack(command: string)
      requires Valid()
      modifies this`enemies, this`messages
      ensures Valid()
      ensures (enemies, messages) == RegexAttack(command, old(enemies), old(messages))
    {
      if !IsSubstitution(command) {
        AddMessage(InvalidSyntax);
        return;
      }
      Purge();
    }

    /** The part of `handle_regex_attack` after the pattern matched: the
        first Boss loses five hit points and is removed at zero or below. */
    method Purge()
      requires Valid()
      modifies this`enemies, this`messages
      ensures Valid()
      ensures enemies == Purged(old(enemies)) && messages == LoggedAll(old(messages), PurgeMessages(old(enemies)))
    {
      var i := 0;
      while i < |enemies| && enemies[i].kind != Boss
        invariant 0 <= i <= |enemies|
        invariant NoHitBefore(enemies, OfKind(Boss), i)
      {
        i := i + 1;
      }
      if i == |enemies| {
        LoggedAllSingle(old(messages), NoEligibleTargets);
        AddMessage(NoEligibleTargets);
        return;
      }
      var es := enemies;
      FirstHitIs(es, OfKind(Boss), i);
      var hit := es[i].(hp := es[i].hp - PurgeDamage);
      LoggedAllSingle(old(messages), SystemPurge);
      AddMessage(SystemPurge);
      if hit.hp <= 0 {
        AddMessage(ThreatNeutralized(hit.name));
        LoggedAllSnoc(old(messages), [SystemPurge], ThreatNeutralized(hit.name));
        RemoveFirstAt(es[i := hit], i);
        es := RemoveFirst(es[i := hit], hit);
      } else {
        es := es[i := hit];
      }
      enemies := es;
    }

    /** `perform_action`: dispatch on the action name; any other name (the
        `delete` that the key parser's deletions become, say) does nothing. */
    method PerformAction(action: string, params: map<string, string>)
      requires Valid()
      requires action == "regex_attack" ==> "command" in params
      modifies this`registers, this`interactables, this`enemies, this`messages
      ensures Valid()
      ensures action == "yank" ==>
                var y := Yank(old(registers), old(interactables), player.position, RegisterParam(params), old(messages));
                (registers, interactables, enemies, messages) == (y.0, y.1, old(enemies), y.2)
      ensures action == "put" ==>
                var p := Put(old(registers), old(interactables), player.position, RegisterParam(params), old(messages));
                (registers, interactables, enemies, messages) == (old(registers), p.0, old(enemies), p.1)
      ensures action == "regex_attack" ==>
                var a := RegexAttack(params["command"], old(enemies), old(messages));
                (registers, interactables, enemies, messages) == (old(registers), old(interactables), a.0, a.1)
      ensures action != "yank" && action != "put" && action != "regex_attack" ==> unchanged(this)
    {
      if action == "yank" {
        HandleYank(params);
      } else if action == "put" {
        HandlePut(params);
      } else if action == "regex_attack" {
        HandleRegexAttack(params["command"]);
      }
    }

    /** `attack`: the target loses 2 hit points, or 5 while the aura is
        active; at zero or below it is logged as erased and removed from the
        list that holds it. */
    method Attack(target: Victim)
      requires Valid()
      requires Roster(player, enemies, interactables).Holds(target)
      modifies this`player, this`enemies, this`interactables, this`messages
      ensures Valid()
      ensures Roster(player, enemies, interactables) ==
              Struck(old(Roster(player, enemies, interactables)), target, AttackDamage(auraActive))
      ensures messages ==
              LoggedAll(old(messages), StrikeMessages(old(Roster(player, enemies, interactables)).VictimOf(target), AttackDamage(auraActive)))
    {
      var damage := AttackDamage(auraActive);
      var before := Roster(player, enemies, interactables);
      var victim := before.VictimOf(target);
      var hit := victim.(hp := victim.hp - damage);
      ghost var wounded := Wounded(before, target, hit);
      assert Struck(before, target, damage) == if hit.hp > 0 then wounded else Fallen(wounded, hit);
      StruckKeepsTags(before, target, damage);
      Wound(target, hit);
      LogStrike(victim, damage);
      if hit.hp <= 0 {
        RemoveFallen(hit);
      }
    }

    /** The messages of `attack`: the damage dealt, then the erasure of a
        victim at zero hit points or below. */
    method LogStrike(victim: Entity, damage: int)
      requires |messages| <= MaxMessages
      modifies this`messages
      ensures messages == LoggedAll(old(messages), StrikeMessages(victim, damage))
      ensures |messages| <= MaxMessages
    {
      var name := victim.name;
      AddMessage(LinkDamage(name, damage));
      if victim.hp - damage <= 0 {
        AddMessage(Erased(name));
        LoggedAllSnoc(old(messages), [LinkDamage(name, damage)], Erased(name));
      } else {
        LoggedAllSingle(old(messages), LinkDamage(name, damage));
      }
    }

    /** The decrement of `attack`: it happens on the object itself, so the
        list that holds the victim sees the new hit points. */
    method Wound(target: Victim, hit: Entity)
      requires Roster(player, enemies, interactables).Holds(target)
      modifies this`player, this`enemies, this`interactables
      ensures Roster(player, enemies, interactables) == Wounded(old(Roster(player, enemies, interactables)), target, hit)
    {
      match target {
        case ThePlayer => player := hit;
        case EnemyAt(i) => enemies := enemies[i := hit];
        case ItemAt(i) => interactables := interactables[i := hit];
      }
    }

    /** The removal of `attack`: the enemy list is searched first. */
    method RemoveFallen(hit: Entity)
      modifies this`enemies, this`interactables
      ensures Roster(player, enemies, interactables) == Fallen(old(Roster(player, enemies, interactables)), hit)
    {
      if hit in enemies {
        enemies := RemoveFirst(enemies, hit);
      } else if hit in interactables {
        interactables := RemoveFirst(interactables, hit);
      }
    }

    /** `get_render_data`: a copy of the map with interactables, then
        enemies, then the player drawn over it. Nothing changes. */
    method GetRenderData() returns (r: Cells)
      requires Playable()
      ensures r == Paint(mapData, Overlay(interactables + enemies, player))
      ensures SameShape(r, mapData) && |r| == height && |r[0]| == width
    {
      var all := interactables + enemies;
      assert forall i :: 0 <= i < |all| ==> InGrid(mapData, all[i].position) by {
        forall i | 0 <= i < |all| ensures InGrid(mapData, all[i].position) {
          if i >= |interactables| { assert all[i] == enemies[i - |interactables|]; }
        }
      }
      r := DrawEntities(mapData, all);
      r := r[player.position.y := r[player.position.y][player.position.x := player.symbol]];
      var marks := Overlay(all, player);
      assert marks[..|marks| - 1] == MarksOf(all);
    }
  }

  /** What `get_render_data` draws, in order: every entity of `ents`, then
      the player. */
  function Overlay(ents: seq<Entity>, player: Entity): (r: seq<Mark>)
    ensures |r| == |ents| + 1
    ensures r[|ents|] == Mark(player.position, player.symbol)
    ensures forall i :: 0 <= i < |ents| ==> r[i] == Mark(ents[i].position, ents[i].symbol)
  {
    MarksOf(ents) + [Mark(player.position, player.symbol)]
  }

  /** The entity loop of `get_render_data`, writing into its copy of the map. */
  method DrawEntities(g: Cells, ents: seq<Entity>) returns (r: Cells)
    requires forall i :: 0 <= i < |ents| ==> InGrid(g, ents[i].position)
    ensures MarksInGrid(g, MarksOf(ents)) && r == Paint(g, MarksOf(ents))
  {
    var marks := MarksOf(ents);
    r := g;
    for i := 0 to |ents|
      invariant r == Paint(g, marks[..i])
    {
      var e := ents[i];
      assert marks[..i + 1][..i] == marks[..i];
      r := r[e.position.y := r[e.position.y][e.position.x := e.symbol]];
    }
    assert marks[..|ents|] == marks;
  }

  /** The rendered frame shows the player on its cell, every other entity's
      symbol where that entity is the last drawn on its cell, and the map
      itself on every cell that no entity and not the player occupies. */
  lemma RenderedCell(g: Cells, ents: seq<Entity>, player: Entity, p: Point)
    requires MarksInGrid(g, Overlay(ents, player)) && InGrid(g, p)
    ensures p == player.position ==> Paint(g, Overlay(ents, player))[p.y][p.x] == player.symbol
    ensures p != player.position && (forall i :: 0 <= i < |ents| ==> ents[i].position != p) ==>
              Paint(g, Overlay(ents, player))[p.y][p.x] == g[p.y][p.x]
  {
    var ms := Overlay(ents, player);
    PaintAt(g, ms, p);
    if p != player.position && (forall i :: 0 <= i < |ents| ==> ents[i].position != p) {
      assert ms[..|ms| - 1] == MarksOf(ents);
      NoMarkInPrefix(ents, |ents|, p);
      assert MarksOf(ents)[..|ents|] == MarksOf(ents);
    }
  }

  /** `g` is template `t` with every marker cell turned into floor. */
  ghost predicate Cleared(g: Cells, t: seq<string>) {
    |g| == |t| && forall y :: 0 <= y < |t| ==> RowCleared(g[y], t[y])
  }

  /** Row `r` is template row `t` with every marker cell turned into floor. */
  ghost predicate RowCleared(r: string, t: string) {
    |r| == |t| && forall x :: 0 <= x < |t| ==> r[x] == ClearedCell(t[x])
  }

  /** A level with a player marker is loaded: a rectangular grid whose
      recorded width and height are its own, the player on a floor cell
      and every entity inside the grid. */
  ghost predicate Settled(g: Cells, w: int, h: int, at: Point, foes: seq<Entity>, items: seq<Entity>) {
    && Board(g, foes + items).Playable()
    && w == |g[0]| && h == |g|
    && OnFloor(g, at)
    && (forall i :: 0 <= i < |foes| ==> InGrid(g, foes[i].position))
    && (forall i :: 0 <= i < |items| ==> InGrid(g, items[i].position))
  }

  /** What a finished scan guarantees: keys and locks carry their letters,
      and with a player marker in the template the level is playable. */
  lemma ScanSettles(t: seq<string>, grid: Cells, foes: seq<Entity>, items: seq<Entity>, at: Point, start: Point)
    requires Rectangular(t)
    requires Cleared(grid, t)
    requires foes == GridSpawns(t, |t|, Enemies) && items == GridSpawns(t, |t|, Interactables)
    requires at == GridPlayer(t, |t|, start)
    ensures WellTagged(items)
    ensures HasPlayerMarker(t) ==> Settled(grid, |t[0]|, |t|, at, foes, items)
  {
    forall i | 0 <= i < |items|
      ensures (items[i].kind == Key || items[i].kind == Lock) ==> items[i].reg.Some?
    {
      SpawnedEntities(t, Interactables, items[i]);
    }
    forall i | 0 <= i < |foes| ensures InGrid(grid, foes[i].position) {
      SpawnedEntities(t, Enemies, foes[i]);
    }
    forall i | 0 <= i < |items| ensures InGrid(grid, items[i].position) {
      SpawnedEntities(t, Interactables, items[i]);
    }
    PlayerOnMarker(t, start);
    if HasPlayerMarker(t) {
      assert t[at.y][at.x] == '@' && ClearedCell('@') == '.';
    }
  }

  /** The scan of `load_level` over the whole template, row by row. */
  method ScanGrid(t: seq<string>, at0: Point) returns (grid: Cells, foes: seq<Entity>, items: seq<Entity>, at: Point)
    ensures Cleared(grid, t)
    ensures foes == GridSpawns(t, |t|, Enemies)
    ensures items == GridSpawns(t, |t|, Interactables)
    ensures at == GridPlayer(t, |t|, at0)
  {
    grid, foes, items, at := t, [], [], at0;
    for y := 0 to |t|
      invariant |grid| == |t|
      invariant forall r :: 0 <= r < y ==> RowCleared(grid[r], t[r])
      invariant forall r :: y <= r < |t| ==> grid[r] == t[r]
      invariant foes == GridSpawns(t, y, Enemies)
      invariant items == GridSpawns(t, y, Interactables)
      invariant at == GridPlayer(t, y, at0)
    {
      var row, rowFoes, rowItems;
      row, rowFoes, rowItems, at := ScanRow(grid[y], y, at);
      foes, items := foes + rowFoes, items + rowItems;
      grid := grid[y := row];
    }
  }

  /** The inner loop of `load_level` over row `y`: each marker cell adds
      its entity to the row's share of its list (or moves the player there)
      and becomes floor. */
  method ScanRow(row0: string, y: int, at0: Point)
    returns (row: string, foes: seq<Entity>, items: seq<Entity>, at: Point)
    ensures RowCleared(row, row0)
    ensures foes == RowSpawns(row0, y, |row0|, Enemies)
    ensures items == RowSpawns(row0, y, |row0|, Interactables)
    ensures at == RowPlayer(row0, y, |row0|, at0)
  {
    row, foes, items, at := row0, [], [], at0;
    for x := 0 to |row0|
      invariant |row| == |row0|
      invariant forall x' :: 0 <= x' < x ==> row[x'] == ClearedCell(row0[x'])
      invariant forall x' :: x <= x' < |row| ==> row[x'] == row0[x']
      invariant foes == RowSpawns(row0, y, x, Enemies)
      invariant items == RowSpawns(row0, y, x, Interactables)
      invariant at == RowPlayer(row0, y, x, at0)
    {
      var point := Point(x, y);
      var cleared, foe, item, isPlayer := ScanCell(row[x], point);
      foes, items := foes + foe, items + item;
      if isPlayer {
        at := point;
      }
      row := row[x := cleared];
    }
  }

  /** One cell of `load_level`: what it spawns, whether the player starts
      there, and the character it leaves behind. */
  method ScanCell(c: char, p: Point) returns (cleared: char, foe: seq<Entity>, item: seq<Entity>, isPlayer: bool)
    ensures cleared == ClearedCell(c)
    ensures foe == SpawnedInto(c, p, Enemies) && item == SpawnedInto(c, p, Interactables)
    ensures isPlayer <==> c == '@'
  {
    ClearedCellAt(c, p);
    cleared, foe, item, isPlayer := c, [], [], false;
    match Spawn(c, p) {
      case PlayerMarker =>
        isPlayer := true;
        cleared := '.';
      case EnemyMarker(e) =>
        foe := [e];
        cleared := '.';
      case ItemMarker(e) =>
        item := [e];
        cleared := '.';
      case NoMarker =>
    }
  }

  /** One more entity scanned by `handle_put`: one more mismatch when it is
      a lock within reach. */
  lemma MismatchesSnoc(s: seq<Entity>, i: nat, p: Point, register: string)
    requires i < |s|
    ensures Mismatches(s[..i + 1], p, register) ==
            Mismatches(s[..i], p, register) +
            (if Hits(s[i], NearKind(Lock, p)) then [KeyMismatch(register, s[i].reg.GetOr(s[i].symbol))] else [])
  {
    assert s[..i + 1][..i] == s[..i];
  }

  /** The log after one more entity scanned by `handle_put`. */
  lemma ScanLocksStep(log: seq<Message>, s: seq<Entity>, i: nat, p: Point, register: string)
    requires i < |s|
    ensures LoggedAll(log, Mismatches(s[..i + 1], p, register)) ==
            if Hits(s[i], NearKind(Lock, p))
            then Logged(LoggedAll(log, Mismatches(s[..i], p, register)), KeyMismatch(register, s[i].reg.GetOr(s[i].symbol)))
            else LoggedAll(log, Mismatches(s[..i], p, register))
  {
    MismatchesSnoc(s, i, p, register);
    var prev := Mismatches(s[..i], p, register);
    if Hits(s[i], NearKind(Lock, p)) {
      LoggedAllSnoc(log, prev, KeyMismatch(register, s[i].reg.GetOr(s[i].symbol)));
    } else {
      assert prev + [] == prev;
    }
  }

  /** What the engine logs for a finished walk. */
  lemma LoggedAllOne(log: seq<Message>, end: WalkEnd)
    ensures LoggedAll(log, WalkMessages(end)) ==
            if end.BlockedBy? then Logged(log, PathBlocked(end.name))
            else if end == Collided then Logged(log, CollidedWithBoundary)
            else log
  {
    var ms := WalkMessages(end);
    if ms != [] {
      assert ms[1..] == [];
    }
  }

  lemma WellTaggedAfterRemoval(s: seq<Entity>, i: nat)
    requires WellTagged(s) && i < |s|
    ensures WellTagged(RemoveAt(s, i))
  {
    var r := RemoveAt(s, i);
    forall j | 0 <= j < |r| && (r[j].kind == Key || r[j].kind == Lock) ensures r[j].reg.Some? {
      if j >= i { assert r[j] == s[j + 1]; }
    }
  }

  /** Striking keeps every key and lock of the interactables tagged. */
  lemma StruckKeepsTags(r: Roster, t: Victim, damage: int)
    requires r.Holds(t) && WellTagged(r.items)
    ensures WellTagged(Struck(r, t, damage).items)
  {
    var victim := r.VictimOf(t);
    var hit := victim.(hp := victim.hp - damage);
    var r1 := Wounded(r, t, hit);
    if t.ItemAt? {
      WellTaggedUpdate(r.items, t.i, hit);
    }
    assert WellTagged(r1.items);
    if hit.hp <= 0 && hit !in r1.enemies && hit in r1.items {
      WellTaggedWithout(r1.items, hit);
    }
  }

  /** Replacing an entity by one of the same kind and tag keeps a list tagged. */
  lemma WellTaggedUpdate(s: seq<Entity>, i: nat, v: Entity)
    requires WellTagged(s) && i < |s| && v.kind == s[i].kind && v.reg == s[i].reg
    ensures WellTagged(s[i := v])
  {
    var u := s[i := v];
    forall j | 0 <= j < |u| && (u[j].kind == Key || u[j].kind == Lock) ensures u[j].reg.Some? {
      if j != i { assert u[j] == s[j]; }
    }
  }

  lemma WellTaggedWithout(s: seq<Entity>, v: Entity)
    requires WellTagged(s) && v in s
    ensures WellTagged(RemoveFirst(s, v))
  {
    var k := IndexOf(s, v);
    RemoveFirstAt(s, k);
    WellTaggedAfterRemoval(s, k);
  }

  lemma {:induction false} NoMarkInPrefix(all: seq<Entity>, n: nat, p: Point)
    requires n <= |all|
    requires forall i :: 0 <= i < |all| ==> all[i].position != p
    ensures TopMark(MarksOf(all)[..n], p) == None
    decreases n
  {
    if n > 0 {
      assert MarksOf(all)[..n][..n - 1] == MarksOf(all)[..n - 1];
      NoMarkInPrefix(all, n - 1, p);
    }
  }
}
