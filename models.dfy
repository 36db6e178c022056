/** The value types of the game (src/data/models.py). */
module Models {
  import opened Util

  datatype GameMode = Normal | Insert | Visual | VisualLine | Command

  datatype EntityType = Player | Enemy | Rubble | Exit | Key | Lock | Terminal | Boss | Decor

  /** An immutable grid coordinate, compared by value. */
  datatype Point = Point(x: int, y: int)

  /** A thing on the map. The record declares its coordinate as `pos` while
      the engine reads and writes `position`; the model has one field.
      `reg` is the `metadata["reg"]` letter that keys and locks carry. */
  datatype Entity = Entity(
    name: string,
    symbol: char,
    position: Point,
    hp: int,
    maxHp: int,
    kind: EntityType,
    aura: bool,
    reg: Option<char>)

  /** A level descriptor; the engine treats it as read-only input. */
  datatype LevelConfig = LevelConfig(
    num: int,
    name: string,
    instructions: string,
    mapTemplate: seq<string>,
    unlockedCommands: set<string>,
    parKeystrokes: int,
    objective: string,
    narrativeIntro: Option<string>)

  /** Chebyshev distance at most one: `abs(dx) <= 1 and abs(dy) <= 1`. */
  predicate Near(a: Point, b: Point) {
    -1 <= a.x - b.x <= 1 && -1 <= a.y - b.y <= 1
  }
}
