/** The rules of the world engine (src/core/engine.py) as pure functions:
    what a level template spawns, how one walk of the player ends, which
    entity a yank, put or regex attack picks, and what the log receives.
    The class in core_engine.dfy is proved against these. */
module CoreRules {
  import opened Util
  import opened Models
  import opened Grid

  /** The log entries the engine writes, by kind (the texts are left out). */
  datatype Message =
    | Online
    | PathBlocked(obstacle: string)
    | CollidedWithBoundary
    | Yanked(item: string, register: string)
    | NothingToYank
    | RegisterEmpty(register: string)
    | AccessGranted(lockLetter: char)                  // the lock's letter, shown upper-case
    | KeyMismatch(register: string, lockLetter: char)
    | InvalidSyntax
    | SystemPurge
    | ThreatNeutralized(target: string)
    | NoEligibleTargets
    | LinkDamage(target: string, damage: int)
    | Erased(target: string)

  // ---------------------------------------------------------------------
  // Level loading: what each template character spawns.
  // ---------------------------------------------------------------------

  predicate IsLower(c: char) { 'a' <= c <= 'z' }
  predicate IsUpper(c: char) { 'A' <= c <= 'Z' }

  function ToLower(c: char): (r: char)
    requires IsUpper(c)
    ensures IsLower(r)
  {
    (c as int - 'A' as int + 'a' as int) as char
  }

  datatype Spawned = PlayerMarker | EnemyMarker(e: Entity) | ItemMarker(e: Entity) | NoMarker

  /** What `load_level` does with character `c` at cell `p`, in the order
      of its if-chain. The enemy test `char in "G B"` also holds for a space. */
  function Spawn(c: char, p: Point): Spawned {
    if c == '@' then PlayerMarker
    else if c in "G B" then
      if c == 'B' then EnemyMarker(Entity("Corrupted Binary", c, p, 10, 10, Boss, false, None))
      else EnemyMarker(Entity("Minion", c, p, 5, 5, Enemy, false, None))
    else if c == '>' then ItemMarker(Entity("Exit", '>', p, 1, 1, Exit, false, None))
    else if c == 'R' then ItemMarker(Entity("Rubble", 'R', p, 1, 1, Rubble, false, None))
    else if IsLower(c) && c != 'b' then ItemMarker(Entity("Key " + [c], c, p, 1, 1, Key, false, Some(c)))
    else if IsUpper(c) && c !in "RGB B" then ItemMarker(Entity("Lock " + [c], c, p, 1, 1, Lock, false, Some(ToLower(c))))
    else NoMarker
  }

  /** The characters the scan recognises. */
  predicate IsMarker(c: char) {
    c == '@' || c in "G B" || c == '>' || c == 'R' || (IsLower(c) && c != 'b') || (IsUpper(c) && c !in "RGB B")
  }

  /** Every marker cell becomes floor; other cells keep their character. */
  function ClearedCell(c: char): (r: char)
    ensures IsMarker(c) ==> r == '.'
    ensures !IsMarker(c) ==> r == c
  {
    if IsMarker(c) then '.' else c
  }

  /** Exactly the marker characters spawn something (or place the player). */
  lemma ClearedCellAt(c: char, p: Point)
    ensures Spawn(c, p).NoMarker? <==> !IsMarker(c)
  {
  }

  datatype Pool = Enemies | Interactables

  /** The entity (zero or one) that character `c` at `p` adds to `pool`. */
  function SpawnedInto(c: char, p: Point, pool: Pool): seq<Entity> {
    match Spawn(c, p)
    case EnemyMarker(e) => if pool == Enemies then [e] else []
    case ItemMarker(e) => if pool == Interactables then [e] else []
    case _ => []
  }

  /** What the first `n` cells of row `y` add to `pool`, left to right. */
  function RowSpawns(row: string, y: int, n: nat, pool: Pool): seq<Entity>
    requires n <= |row|
    decreases n
  {
    if n == 0 then []
    else RowSpawns(row, y, n - 1, pool) + SpawnedInto(row[n - 1], Point(n - 1, y), pool)
  }

  /** What the first `n` rows add to `pool`, row by row. */
  function GridSpawns(t: seq<string>, n: nat, pool: Pool): seq<Entity>
    requires n <= |t|
    decreases n
  {
    if n == 0 then []
    else GridSpawns(t, n - 1, pool) + RowSpawns(t[n - 1], n - 1, |t[n - 1]|, pool)
  }

  /** Where the player stands after scanning the first `n` cells of row `y`,
      starting from `p`: the last `@` wins. */
  function RowPlayer(row: string, y: int, n: nat, p: Point): Point
    requires n <= |row|
    decreases n
  {
    if n == 0 then p
    else if row[n - 1] == '@' then Point(n - 1, y)
    else RowPlayer(row, y, n - 1, p)
  }

  function GridPlayer(t: seq<string>, n: nat, p: Point): Point
    requires n <= |t|
    decreases n
  {
    if n == 0 then p
    else RowPlayer(t[n - 1], n - 1, |t[n - 1]|, GridPlayer(t, n - 1, p))
  }

  /** Cell `x` of row `row`, row number `y`, spawns `e` into `pool`. */
  predicate CellSpawns(row: string, y: int, x: int, pool: Pool, e: Entity) {
    0 <= x < |row| && SpawnedInto(row[x], Point(x, y), pool) == [e]
  }

  /** Cell (`x`, `y`) of the template spawns `e` into `pool`. */
  predicate SpawnsAt(t: seq<string>, y: int, x: int, pool: Pool, e: Entity) {
    0 <= y < |t| && CellSpawns(t[y], y, x, pool, e)
  }

  /** Every entity a row spawns comes from one of its marker cells: the
      cell `x` returned. */
  lemma {:induction false} RowSpawnsSound(row: string, y: int, n: nat, pool: Pool, e: Entity) returns (x: nat)
    requires n <= |row| && e in RowSpawns(row, y, n, pool)
    ensures x < n && CellSpawns(row, y, x, pool, e)
    decreases n
  {
    var earlier := RowSpawns(row, y, n - 1, pool);
    var s := SpawnedInto(row[n - 1], Point(n - 1, y), pool);
    assert e in earlier + s;
    if e in earlier {
      x := RowSpawnsSound(row, y, n - 1, pool, e);
    } else {
      SpawnCell(row, y, n - 1, pool, e);
      x := n - 1;
    }
  }

  /** Every marker cell of a row spawns its entity. */
  lemma {:induction false} RowSpawnsComplete(row: string, y: int, n: nat, x: nat, pool: Pool, e: Entity)
    requires x < n <= |row| && CellSpawns(row, y, x, pool, e)
    ensures e in RowSpawns(row, y, n, pool)
    decreases n
  {
    var earlier := RowSpawns(row, y, n - 1, pool);
    var s := SpawnedInto(row[n - 1], Point(n - 1, y), pool);
    if x < n - 1 {
      RowSpawnsComplete(row, y, n - 1, x, pool, e);
    } else {
      assert s == [e];
    }
    assert e in earlier + s;
  }

  /** One cell spawns at most one entity. */
  lemma SpawnCell(row: string, y: int, x: nat, pool: Pool, e: Entity)
    requires x < |row|
    ensures e in SpawnedInto(row[x], Point(x, y), pool) <==> CellSpawns(row, y, x, pool, e)
  {
    var s := SpawnedInto(row[x], Point(x, y), pool);
    assert s == [] || |s| == 1;
  }

  /** Every entity the first `n` rows spawn comes from one of their marker
      cells: the cell (`x`, `y`) returned. */
  lemma {:induction false} GridSpawnsSound(t: seq<string>, n: nat, pool: Pool, e: Entity) returns (y: nat, x: nat)
    requires n <= |t| && e in GridSpawns(t, n, pool)
    ensures y < n && SpawnsAt(t, y, x, pool, e)
    decreases n
  {
    var earlier := GridSpawns(t, n - 1, pool);
    var row := RowSpawns(t[n - 1], n - 1, |t[n - 1]|, pool);
    assert e in earlier + row;
    if e in earlier {
      y, x := GridSpawnsSound(t, n - 1, pool, e);
    } else {
      y := n - 1;
      x := RowSpawnsSound(t[n - 1], n - 1, |t[n - 1]|, pool, e);
    }
  }

  /** Every marker cell of the first `n` rows spawns its entity. */
  lemma {:induction false} GridSpawnsComplete(t: seq<string>, n: nat, y: nat, x: nat, pool: Pool, e: Entity)
    requires y < n <= |t| && SpawnsAt(t, y, x, pool, e)
    ensures e in GridSpawns(t, n, pool)
    decreases n
  {
    var earlier := GridSpawns(t, n - 1, pool);
    var row := RowSpawns(t[n - 1], n - 1, |t[n - 1]|, pool);
    if y < n - 1 {
      GridSpawnsComplete(t, n - 1, y, x, pool, e);
    } else {
      RowSpawnsComplete(t[n - 1], n - 1, |t[n - 1]|, x, pool, e);
    }
    assert e in earlier + row;
  }

  /** What one marker character spawns. */
  lemma SpawnFacts(c: char, p: Point, pool: Pool, e: Entity)
    requires SpawnedInto(c, p, pool) == [e]
    ensures e.position == p && e.symbol == c && e.hp == e.maxHp
    ensures pool == Enemies ==>
              (e.kind == Boss && e.hp == 10 && c == 'B') || (e.kind == Enemy && e.hp == 5 && (c == 'G' || c == ' '))
    ensures pool == Interactables ==>
              (e.kind == Exit || e.kind == Rubble || e.kind == Key || e.kind == Lock) &&
              ((e.kind == Key || e.kind == Lock) ==> e.reg.Some?)
  {
  }

  /** The loaded lists hold exactly the entities of the template's marker
      cells: each sits on its own cell and shows that cell's character;
      enemies come from `G`, `B` and space with full hit points (a Boss 10,
      a Minion 5); interactables are exits, rubble, keys and locks, and every
      key and lock carries its letter. */
  lemma SpawnedEntities(t: seq<string>, pool: Pool, e: Entity)
    ensures e in GridSpawns(t, |t|, pool) <==> exists y, x :: 0 <= y < |t| && SpawnsAt(t, y, x, pool, e)
    ensures e in GridSpawns(t, |t|, pool) ==>
              InGrid(t, e.position) && t[e.position.y][e.position.x] == e.symbol && e.hp == e.maxHp
    ensures pool == Enemies && e in GridSpawns(t, |t|, pool) ==>
              (e.kind == Boss && e.hp == 10 && e.symbol == 'B') ||
              (e.kind == Enemy && e.hp == 5 && (e.symbol == 'G' || e.symbol == ' '))
    ensures pool == Interactables && e in GridSpawns(t, |t|, pool) ==>
              (e.kind == Exit || e.kind == Rubble || e.kind == Key || e.kind == Lock) &&
              ((e.kind == Key || e.kind == Lock) ==> e.reg.Some?)
  {
    if e in GridSpawns(t, |t|, pool) {
      var y, x := GridSpawnsSound(t, |t|, pool, e);
      SpawnFacts(t[y][x], Point(x, y), pool, e);
    }
    if exists y, x :: 0 <= y < |t| && SpawnsAt(t, y, x, pool, e) {
      var y, x :| 0 <= y < |t| && SpawnsAt(t, y, x, pool, e);
      GridSpawnsComplete(t, |t|, y, x, pool, e);
    }
  }

  /** The player marker cell: after a scan the player stands on the last
      `@` of the row, or where it stood before when there is none. */
  lemma {:induction false} RowPlayerFound(row: string, y: int, n: nat, p: Point)
    requires n <= |row|
    ensures var q := RowPlayer(row, y, n, p);
      (q == p && forall x :: 0 <= x < n ==> row[x] != '@') ||
      (q.y == y && 0 <= q.x < n && row[q.x] == '@' && forall x :: q.x < x < n ==> row[x] != '@')
    decreases n
  {
    if n > 0 { RowPlayerFound(row, y, n - 1, p); }
  }

  /** The same over the first `n` rows: the last `@` in reading order. */
  lemma {:induction false} GridPlayerFound(t: seq<string>, n: nat, p: Point)
    requires n <= |t|
    ensures var q := GridPlayer(t, n, p);
      (q == p && forall y, x :: 0 <= y < n && 0 <= x < |t[y]| ==> t[y][x] != '@') ||
      (0 <= q.y < n && 0 <= q.x < |t[q.y]| && t[q.y][q.x] == '@' &&
       (forall x :: q.x < x < |t[q.y]| ==> t[q.y][x] != '@') &&
       (forall y, x :: q.y < y < n && 0 <= x < |t[y]| ==> t[y][x] != '@'))
    decreases n
  {
    if n > 0 {
      GridPlayerFound(t, n - 1, p);
      RowPlayerFound(t[n - 1], n - 1, |t[n - 1]|, GridPlayer(t, n - 1, p));
    }
  }

  lemma PlayerOnMarker(t: seq<string>, p: Point)
    ensures HasPlayerMarker(t) ==> InGrid(t, GridPlayer(t, |t|, p)) &&
                                   t[GridPlayer(t, |t|, p).y][GridPlayer(t, |t|, p).x] == '@'
    ensures !HasPlayerMarker(t) ==> GridPlayer(t, |t|, p) == p
  {
    GridPlayerFound(t, |t|, p);
  }

  // ---------------------------------------------------------------------
  // Searching the entity lists: every search in the engine takes the first
  // entity of a list that satisfies a test.
  // ---------------------------------------------------------------------

  datatype Query =
    | At(p: Point)                          // `entity.position == position`
    | NearKind(kind: EntityType, p: Point)  // of a kind, within Chebyshev distance 1
    | OfKind(kind: EntityType)              // of a kind, anywhere
    | Opens(p: Point, letter: char)         // an in-range lock whose letter matches

  predicate Hits(e: Entity, q: Query) {
    match q
    case At(p) => e.position == p
    case NearKind(k, p) => e.kind == k && Near(e.position, p)
    case OfKind(k) => e.kind == k
    case Opens(p, v) => e.kind == Lock && Near(e.position, p) && e.reg == Some(v)
  }

  /** The index of the first entity of `s` that the query hits. */
  function FirstHit(s: seq<Entity>, q: Query): (r: Option<nat>)
    ensures r.Some? ==> r.value < |s| && Hits(s[r.value], q) &&
                        forall j :: 0 <= j < r.value ==> !Hits(s[j], q)
    ensures r.None? <==> forall j :: 0 <= j < |s| ==> !Hits(s[j], q)
    decreases |s|
  {
    if s == [] then None
    else if Hits(s[0], q) then Some(0)
    else match FirstHit(s[1..], q)
      case None => None
      case Some(i) => Some(i + 1)
  }

  /** No entity before index `i` is hit: the loop invariant of every scan
      that stops at the first hit. */
  predicate NoHitBefore(s: seq<Entity>, q: Query, i: int) {
    FirstHit(s, q).None? || FirstHit(s, q).value >= i
  }

  /** A hit with no hit before it is the first hit. */
  lemma FirstHitIs(s: seq<Entity>, q: Query, i: nat)
    requires i < |s| && Hits(s[i], q)
    requires forall j :: 0 <= j < i ==> !Hits(s[j], q)
    ensures FirstHit(s, q) == Some(i)
  {
  }

  /** `get_entity_at`: the first entity on cell `p`. */
  function EntityAt(s: seq<Entity>, p: Point): (r: Option<Entity>)
    ensures r.Some? ==> r.value in s && r.value.position == p
    ensures r.None? <==> forall e :: e in s ==> e.position != p
  {
    match FirstHit(s, At(p))
    case None => None
    case Some(i) => Some(s[i])
  }

  /** `list.remove` of the element at index `i`. */
  function RemoveAt(s: seq<Entity>, i: nat): (r: seq<Entity>)
    requires i < |s|
    ensures |r| == |s| - 1
    ensures forall j :: 0 <= j < i ==> r[j] == s[j]
    ensures forall j :: i <= j < |r| ==> r[j] == s[j + 1]
  {
    s[..i] + s[i + 1..]
  }

  /** Keys and locks always carry their `metadata["reg"]` letter. */
  predicate WellTagged(s: seq<Entity>) {
    forall i :: 0 <= i < |s| && (s[i].kind == Key || s[i].kind == Lock) ==> s[i].reg.Some?
  }

  // ---------------------------------------------------------------------
  // Movement
  // ---------------------------------------------------------------------

  /** What `move_player` consults: the walkability grid and every entity
      (enemies first, then interactables). */
  datatype Board = Board(grid: Cells, ents: seq<Entity>) {
    predicate Playable() {
      Rectangular(grid) && |grid[0]| > 0
    }
    function Width(): int requires Playable() { |grid[0]| }
    function Height(): int requires Playable() { |grid| }
  }

  predicate Blocking(k: EntityType) {
    k == Enemy || k == Rubble || k == Lock || k == Boss
  }

  datatype StepOutcome = ToExit | Obstacle(name: string) | Wall | MovedTo(q: Point)

  /** The cell one step from `p`, clamped into the grid. */
  function Target(b: Board, p: Point, dx: int, dy: int): (q: Point)
    requires b.Playable()
    ensures InGrid(b.grid, q)
  {
    Point(Clamp(p.x + dx, 0, b.Width() - 1), Clamp(p.y + dy, 0, b.Height() - 1))
  }

  function StepFrom(b: Board, p: Point, dx: int, dy: int): StepOutcome
    requires b.Playable()
  {
    var q := Target(b, p, dx, dy);
    var e := EntityAt(b.ents, q);
    if e.Some? && e.value.kind == Exit then ToExit
    else if e.Some? && Blocking(e.value.kind) then Obstacle(e.value.name)
    else if b.grid[q.y][q.x] == '.' then MovedTo(q)
    else Wall
  }

  datatype WalkEnd = Exhausted | ReachedExit | BlockedBy(name: string) | Collided

  /** Where `move_player(dx, dy, n)` leaves the player, and why it stopped. */
  function Walk(b: Board, p: Point, dx: int, dy: int, n: int): (Point, WalkEnd)
    requires b.Playable()
    decreases n
  {
    if n <= 0 then (p, Exhausted)
    else match StepFrom(b, p, dx, dy)
      case ToExit => (p, ReachedExit)
      case Obstacle(name) => (p, BlockedBy(name))
      case Wall => (p, Collided)
      case MovedTo(q) => Walk(b, q, dx, dy, n - 1)
  }

  /** The log entries a walk adds: one per blocked or collided walk. */
  function WalkMessages(end: WalkEnd): (r: seq<Message>)
    ensures |r| <= 1
    ensures r == [] <==> end == Exhausted || end == ReachedExit
  {
    match end
    case BlockedBy(name) => [PathBlocked(name)]
    case Collided => [CollidedWithBoundary]
    case _ => []
  }

  predicate OnFloor(g: Cells, p: Point) {
    InGrid(g, p) && g[p.y][p.x] == '.'
  }

  /** A walk that starts on a floor cell ends on a floor cell. */
  lemma {:induction false} WalkStaysOnFloor(b: Board, p: Point, dx: int, dy: int, n: int)
    requires b.Playable() && OnFloor(b.grid, p)
    ensures OnFloor(b.grid, Walk(b, p, dx, dy, n).0)
    decreases n
  {
    if n > 0 {
      match StepFrom(b, p, dx, dy)
      case MovedTo(q) => WalkStaysOnFloor(b, q, dx, dy, n - 1);
      case _ =>
    }
  }

  /** A walk never ends on an exit or an obstacle unless it started there. */
  lemma {:induction false} WalkNeverEntersBlockedCell(b: Board, p: Point, dx: int, dy: int, n: int)
    requires b.Playable()
    requires var e := EntityAt(b.ents, p); e.Some? ==> e.value.kind != Exit && !Blocking(e.value.kind)
    ensures var e := EntityAt(b.ents, Walk(b, p, dx, dy, n).0);
            e.Some? ==> e.value.kind != Exit && !Blocking(e.value.kind)
    decreases n
  {
    if n > 0 {
      match StepFrom(b, p, dx, dy)
      case MovedTo(q) => WalkNeverEntersBlockedCell(b, q, dx, dy, n - 1);
      case _ =>
    }
  }

  /** Unit steps: the walk moves at most one cell per step along each axis,
      in the step's own direction, and not at all along an axis it does not
      step on. */
  lemma {:induction false} WalkDistance(b: Board, p: Point, dx: int, dy: int, n: int)
    requires b.Playable() && InGrid(b.grid, p)
    requires -1 <= dx <= 1 && -1 <= dy <= 1
    ensures var q := Walk(b, p, dx, dy, n).0; var k := if n < 0 then 0 else n;
      && (dx == 0 ==> q.x == p.x)
      && (dx == 1 ==> p.x <= q.x <= p.x + k)
      && (dx == -1 ==> p.x - k <= q.x <= p.x)
      && (dy == 0 ==> q.y == p.y)
      && (dy == 1 ==> p.y <= q.y <= p.y + k)
      && (dy == -1 ==> p.y - k <= q.y <= p.y)
    decreases n
  {
    if n > 0 {
      match StepFrom(b, p, dx, dy)
      case MovedTo(q) => WalkDistance(b, q, dx, dy, n - 1);
      case _ =>
    }
  }

  // ---------------------------------------------------------------------
  // Yank: the first key within reach goes into a register.
  // ---------------------------------------------------------------------

  /** The registers, the interactables and the log after `handle_yank`
      with register `reg`, the player at `at`. */
  function Yank(regs: map<string, char>, items: seq<Entity>, at: Point, reg: string, log: seq<Message>)
    : (map<string, char>, seq<Entity>, seq<Message>)
    requires WellTagged(items)
  {
    match FirstHit(items, NearKind(Key, at))
    case None => (regs, items, Logged(log, NothingToYank))
    case Some(i) => (regs[reg := items[i].reg.value], RemoveAt(items, i), Logged(log, Yanked(items[i].name, reg)))
  }

  // ---------------------------------------------------------------------
  // Put: locks in range that do not match log a failure each.
  // ---------------------------------------------------------------------

  /** One failure per in-range lock of `s`, in order. */
  function Mismatches(s: seq<Entity>, p: Point, register: string): (r: seq<Message>)
    ensures |r| <= |s|
    ensures r == [] <==> forall j :: 0 <= j < |s| ==> !Hits(s[j], NearKind(Lock, p))
    decreases |s|
  {
    if s == [] then []
    else
      var last := s[|s| - 1];
      var init := s[..|s| - 1];
      assert forall j :: 0 <= j < |init| ==> init[j] == s[j];
      Mismatches(init, p, register) + (if Hits(last, NearKind(Lock, p)) then [KeyMismatch(register, last.reg.GetOr(last.symbol))] else [])
  }

  /** How many entities of `s` are locks within reach of `p`. */
  function LocksInReach(s: seq<Entity>, p: Point): nat
    decreases |s|
  {
    if s == [] then 0
    else LocksInReach(s[..|s| - 1], p) + (if Hits(s[|s| - 1], NearKind(Lock, p)) then 1 else 0)
  }

  /** A put logs one failure per lock within reach that it passes over,
      each naming the register and that lock's letter, and nothing else. */
  lemma {:induction false} MismatchPerLock(s: seq<Entity>, p: Point, register: string)
    ensures |Mismatches(s, p, register)| == LocksInReach(s, p)
    ensures forall m :: m in Mismatches(s, p, register) ==>
              m.KeyMismatch? && m.register == register &&
              exists j :: 0 <= j < |s| && Hits(s[j], NearKind(Lock, p)) && m.lockLetter == s[j].reg.GetOr(s[j].symbol)
    decreases |s|
  {
    if s != [] {
      var init := s[..|s| - 1];
      MismatchPerLock(init, p, register);
      forall m | m in Mismatches(s, p, register)
        ensures m.KeyMismatch? && m.register == register &&
                exists j :: 0 <= j < |s| && Hits(s[j], NearKind(Lock, p)) && m.lockLetter == s[j].reg.GetOr(s[j].symbol)
      {
        var last := s[|s| - 1];
        var tail := if Hits(last, NearKind(Lock, p)) then [KeyMismatch(register, last.reg.GetOr(last.symbol))] else [];
        assert m in Mismatches(init, p, register) + tail;
        if m in Mismatches(init, p, register) {
          var j :| 0 <= j < |init| && Hits(init[j], NearKind(Lock, p)) && m.lockLetter == init[j].reg.GetOr(init[j].symbol);
          assert s[j] == init[j];
        } else {
          assert Hits(s[|s| - 1], NearKind(Lock, p));
        }
      }
    }
  }

  /** The interactables and the log after `handle_put` with register `reg`
      holding `regs[reg]` (if anything), the player at `at`: the first lock
      within reach that the letter opens is removed, and every lock within
      reach before it logs a failure. */
  function Put(regs: map<string, char>, items: seq<Entity>, at: Point, reg: string, log: seq<Message>)
    : (seq<Entity>, seq<Message>)
    requires WellTagged(items)
  {
    if reg !in regs then (items, Logged(log, RegisterEmpty(reg)))
    else match FirstHit(items, Opens(at, regs[reg]))
      case None => (items, LoggedAll(log, Mismatches(items, at, reg)))
      case Some(i) => (RemoveAt(items, i), LoggedAll(log, Mismatches(items[..i], at, reg) + [AccessGranted(regs[reg])]))
  }

  /** What a yank promises: with a key within reach, the register takes
      that key's letter, exactly that key leaves the list and no other
      register changes; without one, only a single message is added. */
  lemma YankOutcome(regs: map<string, char>, items: seq<Entity>, at: Point, reg: string, log: seq<Message>)
    requires WellTagged(items)
    ensures var y := Yank(regs, items, at, reg, log);
      && (forall k :: k in regs && k != reg ==> k in y.0 && y.0[k] == regs[k])
      && (FirstHit(items, NearKind(Key, at)).Some? ==>
            var i := FirstHit(items, NearKind(Key, at)).value;
            && reg in y.0 && Some(y.0[reg]) == items[i].reg
            && y.1 == items[..i] + items[i + 1..]
            && y.2 == Logged(log, Yanked(items[i].name, reg)))
      && (FirstHit(items, NearKind(Key, at)).None? ==>
            y.0 == regs && y.1 == items && y.2 == Logged(log, NothingToYank))
  {
  }

  /** What a put promises: the first lock within reach that the register
      opens is removed and nothing else is; an empty register or a reach
      without a matching lock leaves the list alone. */
  lemma PutOutcome(regs: map<string, char>, items: seq<Entity>, at: Point, reg: string, log: seq<Message>)
    requires WellTagged(items)
    ensures var r := Put(regs, items, at, reg, log);
      && (reg !in regs ==> r == (items, Logged(log, RegisterEmpty(reg))))
      && (reg in regs && FirstHit(items, Opens(at, regs[reg])).Some? ==>
            var i := FirstHit(items, Opens(at, regs[reg])).value;
            && r.0 == items[..i] + items[i + 1..]
            && items[i].kind == Lock && items[i].reg == Some(regs[reg]) && Near(items[i].position, at))
      && (reg in regs && FirstHit(items, Opens(at, regs[reg])).None? ==> r.0 == items)
  {
  }

  /** With no lock within reach, a put from a filled register says nothing. */
  lemma {:induction false} PutWithoutLockIsSilent(regs: map<string, char>, items: seq<Entity>, at: Point, reg: string, log: seq<Message>)
    requires WellTagged(items) && reg in regs
    requires forall j :: 0 <= j < |items| ==> !Hits(items[j], NearKind(Lock, at))
    ensures Put(regs, items, at, reg, log) == (items, log)
  {
    assert FirstHit(items, Opens(at, regs[reg])).None? by {
      forall j | 0 <= j < |items|
        ensures !Hits(items[j], Opens(at, regs[reg]))
      {
        assert !Hits(items[j], NearKind(Lock, at));
      }
    }
    assert Mismatches(items, at, reg) == [];
  }

  /** Yanking a key and then putting from the same register opens the first
      lock within reach that carries the key's letter. */
  lemma YankThenPut(regs: map<string, char>, items: seq<Entity>, at: Point, reg: string, log: seq<Message>)
    requires WellTagged(items)
    requires FirstHit(items, NearKind(Key, at)).Some?
    ensures var y := Yank(regs, items, at, reg, log);
      var letter := items[FirstHit(items, NearKind(Key, at)).value].reg.value;
      WellTagged(y.1) && reg in y.0 && y.0[reg] == letter &&
      Put(y.0, y.1, at, reg, y.2).0 ==
        match FirstHit(y.1, Opens(at, letter))
        case None => y.1
        case Some(j) => RemoveAt(y.1, j)
  {
    var i := FirstHit(items, NearKind(Key, at)).value;
    var rest := RemoveAt(items, i);
    forall j | 0 <= j < |rest| && (rest[j].kind == Key || rest[j].kind == Lock)
      ensures rest[j].reg.Some?
    {
      if j < i { assert rest[j] == items[j]; } else { assert rest[j] == items[j + 1]; }
    }
  }

  // ---------------------------------------------------------------------
  // Regex attack
  // ---------------------------------------------------------------------

  predicate NoNewline(s: string) {
    forall i :: 0 <= i < |s| ==> s[i] != '\n'
  }

  /** The pattern matches at `s` = `p`, with the middle `/` at `q` and the
      closing `/g` at `r`: both fields are non-empty and hold no line break
      (`.` does not match one); they may themselves contain slashes. */
  predicate SubstitutionAt(c: string, p: int, q: int, r: int) {
    0 <= p && p + 3 <= q && q + 2 <= r && r + 1 < |c| &&
    c[p] == 's' && c[p + 1] == '/' && c[q] == '/' && c[r] == '/' && c[r + 1] == 'g' &&
    NoNewline(c[p + 2..q]) && NoNewline(c[q + 1..r])
  }

  /** `re.search(r's/(.+)/(.+)/g', c)` succeeds: the pattern matches
      somewhere in `c`. */
  predicate IsSubstitution(c: string) {
    exists p, q, r :: 0 <= p < |c| && 0 <= q < |c| && 0 <= r < |c| && SubstitutionAt(c, p, q, r)
  }

  /** The search is unanchored: text around a match does not spoil it. */
  lemma SubstitutionAnywhere(c: string, before: string, after: string)
    requires IsSubstitution(c)
    ensures IsSubstitution(before + c + after)
  {
    var p, q, r :| 0 <= p < |c| && 0 <= q < |c| && 0 <= r < |c| && SubstitutionAt(c, p, q, r);
    var d := before + c + after;
    var k := |before|;
    assert d[k..k + |c|] == c;
    NoNewlineShifted(c, d, k, p + 2, q);
    NoNewlineShifted(c, d, k, q + 1, r);
    assert d[k + p] == c[p] && d[k + p + 1] == c[p + 1];
    assert d[k + q] == c[q] && d[k + r] == c[r] && d[k + r + 1] == c[r + 1];
    assert SubstitutionAt(d, k + p, k + q, k + r);
  }

  /** A field without a line break keeps none when copied to offset `k`. */
  lemma NoNewlineShifted(c: string, d: string, k: nat, a: nat, b: nat)
    requires a <= b <= |c| && k + |c| <= |d| && d[k..k + |c|] == c
    requires NoNewline(c[a..b])
    ensures NoNewline(d[k + a..k + b])
  {
    var f := d[k + a..k + b];
    forall i | 0 <= i < |f| ensures f[i] != '\n' {
      assert f[i] == d[k..k + |c|][a + i];
      assert c[a..b][i] == c[a + i];
    }
  }

  lemma WellFormedAttack()
    ensures IsSubstitution("s/foo/bar/g")
  {
    var c := "s/foo/bar/g";
    assert c[2..5] == "foo" && c[6..9] == "bar";
    assert SubstitutionAt(c, 0, 5, 9);
  }

  /** Without a closing `/g` after a second field there is no match. */
  lemma MalformedAttack()
    ensures !IsSubstitution("s/badsyntax")
    ensures !IsSubstitution("s//bar/g")
  {
    var c := "s/badsyntax";
    forall p, q, r | 0 <= p < |c| && 0 <= q < |c| && 0 <= r < |c|
      ensures !SubstitutionAt(c, p, q, r)
    {
      if r + 1 < |c| && c[r] == '/' { assert r == 1; }
    }
    var d := "s//bar/g";
    forall p, q, r | 0 <= p < |d| && 0 <= q < |d| && 0 <= r < |d|
      ensures !SubstitutionAt(d, p, q, r)
    {
    }
  }

  /** The damage a regex attack does to the first Boss. */
  const PurgeDamage: int := 5

  /** The enemy list after a successful regex attack: the first Boss loses
      five hit points and is removed once it has none left; nobody else is
      touched. */
  function Purged(es: seq<Entity>): (r: seq<Entity>)
    ensures FirstHit(es, OfKind(Boss)).None? ==> r == es
    ensures FirstHit(es, OfKind(Boss)).Some? ==>
      var i := FirstHit(es, OfKind(Boss)).value;
      && |r| == (if es[i].hp - PurgeDamage <= 0 then |es| - 1 else |es|)
      && (forall j :: 0 <= j < i ==> r[j] == es[j])
      && (es[i].hp - PurgeDamage <= 0 ==> |r| == |es| - 1 && forall j :: i <= j < |r| ==> r[j] == es[j + 1])
      && (es[i].hp - PurgeDamage > 0 ==>
            |r| == |es| && r[i] == es[i].(hp := es[i].hp - PurgeDamage) &&
            forall j :: i < j < |r| ==> r[j] == es[j])
  {
    match FirstHit(es, OfKind(Boss))
    case None => es
    case Some(i) =>
      var hit := es[i].(hp := es[i].hp - PurgeDamage);
      if hit.hp <= 0 then RemoveAt(es, i) else es[i := hit]
  }

  /** What a successful regex attack logs. */
  function PurgeMessages(es: seq<Entity>): (r: seq<Message>)
    ensures FirstHit(es, OfKind(Boss)).None? <==> r == [NoEligibleTargets]
  {
    match FirstHit(es, OfKind(Boss))
    case None => [NoEligibleTargets]
    case Some(i) =>
      if es[i].hp - PurgeDamage <= 0 then [SystemPurge, ThreatNeutralized(es[i].name)] else [SystemPurge]
  }

  /** The enemies and the log after `handle_regex_attack(command)`. */
  function RegexAttack(command: string, es: seq<Entity>, log: seq<Message>): (seq<Entity>, seq<Message>)
  {
    if !IsSubstitution(command) then (es, Logged(log, InvalidSyntax))
    else (Purged(es), LoggedAll(log, PurgeMessages(es)))
  }

  /** A fresh Boss (10 hit points) survives the first attack with 5 and
      stays the first Boss, and the second attack removes exactly it. */
  lemma {:induction false} SecondPurgeRemovesFreshBoss(es: seq<Entity>, i: nat)
    requires FirstHit(es, OfKind(Boss)) == Some(i) && es[i].hp == 10
    ensures |Purged(es)| == |es| && Purged(es)[i].hp == 5
    ensures FirstHit(Purged(es), OfKind(Boss)) == Some(i)
    ensures Purged(Purged(es)) == RemoveAt(es, i)
  {
    var once := Purged(es);
    assert Hits(once[i], OfKind(Boss));
    assert forall j :: 0 <= j < i ==> !Hits(once[j], OfKind(Boss));
    var twice := Purged(once);
    assert |twice| == |es| - 1;
    forall j | 0 <= j < |twice|
      ensures twice[j] == RemoveAt(es, i)[j]
    {
    }
  }

  // ---------------------------------------------------------------------
  // Melee attack
  // ---------------------------------------------------------------------

  /** The entity an `attack` is aimed at: the player, or an element of one
      of the two lists. */
  datatype Victim = ThePlayer | EnemyAt(i: nat) | ItemAt(i: nat)

  /** Everything an attack can change besides the log. */
  datatype Roster = Roster(player: Entity, enemies: seq<Entity>, items: seq<Entity>) {
    predicate Holds(t: Victim) {
      match t
      case ThePlayer => true
      case EnemyAt(i) => i < |enemies|
      case ItemAt(i) => i < |items|
    }

    function VictimOf(t: Victim): Entity
      requires Holds(t)
    {
      match t
      case ThePlayer => player
      case EnemyAt(i) => enemies[i]
      case ItemAt(i) => items[i]
    }
  }

  /** Melee damage: 5 with the aura, 2 without. */
  function AttackDamage(aura: bool): (d: int)
    ensures d == 5 <==> aura
    ensures d == 2 <==> !aura
  {
    if aura then 5 else 2
  }

  /** `attack`: the victim loses `damage` hit points in place; at zero or
      below it leaves the enemy list if it is (equal to an element) there,
      else the interactable list if it is there. */
  function Struck(r: Roster, t: Victim, damage: int): Roster
    requires r.Holds(t)
  {
    var victim := r.VictimOf(t);
    var hit := victim.(hp := victim.hp - damage);
    var r1 := Wounded(r, t, hit);
    if hit.hp > 0 then r1 else Fallen(r1, hit)
  }

  /** The roster with the victim replaced by its wounded self. */
  function Wounded(r: Roster, t: Victim, hit: Entity): Roster
    requires r.Holds(t)
  {
    match t
    case ThePlayer => r.(player := hit)
    case EnemyAt(i) => r.(enemies := r.enemies[i := hit])
    case ItemAt(i) => r.(items := r.items[i := hit])
  }

  /** The roster with a struck-down `hit` removed from the first list that
      holds it. */
  function Fallen(r: Roster, hit: Entity): Roster {
    if hit in r.enemies then r.(enemies := RemoveFirst(r.enemies, hit))
    else if hit in r.items then r.(items := RemoveFirst(r.items, hit))
    else r
  }

  /** What `attack` logs. */
  function StrikeMessages(victim: Entity, damage: int): (r: seq<Message>)
    ensures |r| == (if victim.hp - damage <= 0 then 2 else 1)
    ensures r[0] == LinkDamage(victim.name, damage)
  {
    [LinkDamage(victim.name, damage)] + (if victim.hp - damage <= 0 then [Erased(victim.name)] else [])
  }

  /** A surviving victim keeps its place with `damage` fewer hit points, and
      nothing else changes. */
  lemma StruckSurvivor(r: Roster, t: Victim, damage: int)
    requires r.Holds(t) && r.VictimOf(t).hp - damage > 0
    ensures var r2 := Struck(r, t, damage);
      && |r2.enemies| == |r.enemies| && |r2.items| == |r.items|
      && r2.Holds(t) && r2.VictimOf(t) == r.VictimOf(t).(hp := r.VictimOf(t).hp - damage)
      && (t != ThePlayer ==> r2.player == r.player)
      && (forall j :: 0 <= j < |r.enemies| && t != EnemyAt(j) ==> r2.enemies[j] == r.enemies[j])
      && (forall j :: 0 <= j < |r.items| && t != ItemAt(j) ==> r2.items[j] == r.items[j])
  {
  }

  /** An enemy struck down is removed from exactly its own place when no
      earlier enemy has the same value, and nothing else changes. */
  lemma {:induction false} StruckDownEnemy(r: Roster, i: nat, damage: int)
    requires i < |r.enemies| && r.enemies[i].hp - damage <= 0
    requires forall j :: 0 <= j < i ==> r.enemies[j] != r.enemies[i].(hp := r.enemies[i].hp - damage)
    ensures Struck(r, EnemyAt(i), damage) == r.(enemies := RemoveAt(r.enemies, i))
  {
    var hit := r.enemies[i].(hp := r.enemies[i].hp - damage);
    var es := r.enemies[i := hit];
    assert es[i] == hit;
    RemoveFirstAt(es, i);
    assert es[..i] + es[i + 1..] == RemoveAt(r.enemies, i);
  }

  /** An attack never removes more than one entity, and removes one exactly
      when the victim is struck down and is (equal to an element) in one of
      the lists. */
  lemma StruckCount(r: Roster, t: Victim, damage: int)
    requires r.Holds(t)
    ensures var r2 := Struck(r, t, damage);
      var hit := r.VictimOf(t).(hp := r.VictimOf(t).hp - damage);
      |r2.enemies| + |r2.items| ==
        |r.enemies| + |r.items| - (if hit.hp <= 0 && (t != ThePlayer || hit in r.enemies || hit in r.items) then 1 else 0)
  {
    var victim := r.VictimOf(t);
    var hit := victim.(hp := victim.hp - damage);
    if t.EnemyAt? {
      assert r.enemies[t.i := hit][t.i] == hit;
    } else if t.ItemAt? {
      assert r.items[t.i := hit][t.i] == hit;
    }
  }

  // ---------------------------------------------------------------------
  // Rendering
  // ---------------------------------------------------------------------

  function MarksOf(s: seq<Entity>): (r: seq<Mark>)
    ensures |r| == |s|
    ensures forall i :: 0 <= i < |s| ==> r[i] == Mark(s[i].position, s[i].symbol)
  {
    seq(|s|, i requires 0 <= i < |s| => Mark(s[i].position, s[i].symbol))
  }
}
