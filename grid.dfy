/** The character grid both engines keep (`map_data`): "." is floor, any
    other character is wall. Also the render overlay both engines share. */
module Grid {
  import opened Util
  import opened Models

  type Cells = seq<seq<char>>

  /** At least one row and every row as long as the first. */
  predicate Rectangular(g: Cells) {
    |g| > 0 && forall r :: 0 <= r < |g| ==> |g[r]| == |g[0]|
  }

  /** Some cell of the template is the player marker `@`. */
  predicate HasPlayerMarker(t: seq<string>) {
    exists y, x :: 0 <= y < |t| && 0 <= x < |t[y]| && t[y][x] == '@'
  }

  predicate InGrid(g: Cells, p: Point) {
    0 <= p.y < |g| && 0 <= p.x < |g[p.y]|
  }

  predicate SameShape(a: Cells, b: Cells) {
    |a| == |b| && forall r :: 0 <= r < |a| ==> |a[r]| == |b[r]|
  }

  /** `max(lo, min(hi, v))`: never wraps around. */
  function Clamp(v: int, lo: int, hi: int): (r: int)
    ensures lo <= hi ==> lo <= r <= hi
    ensures lo <= v <= hi ==> r == v
    ensures r == v || r == lo || r == hi
    ensures v < lo ==> r == lo
  {
    if v > hi then (if hi < lo then lo else hi) else if v < lo then lo else v
  }

  /** `g[p.y][p.x] = c` on a copy. */
  function SetCell(g: Cells, p: Point, c: char): (r: Cells)
    requires InGrid(g, p)
    ensures SameShape(r, g)
    ensures r[p.y][p.x] == c
    ensures forall y, x :: 0 <= y < |g| && 0 <= x < |g[y]| && Point(x, y) != p ==> r[y][x] == g[y][x]
  {
    g[p.y := g[p.y][p.x := c]]
  }

  /** One symbol drawn on the render copy at one cell. */
  datatype Mark = Mark(at: Point, symbol: char)

  predicate MarksInGrid(g: Cells, ms: seq<Mark>) {
    forall i :: 0 <= i < |ms| ==> InGrid(g, ms[i].at)
  }

  /** The render copy after drawing `ms` in order, later marks over earlier. */
  function Paint(g: Cells, ms: seq<Mark>): (r: Cells)
    requires MarksInGrid(g, ms)
    ensures SameShape(r, g)
    decreases |ms|
  {
    if ms == [] then g
    else
      var last := ms[|ms| - 1];
      SetCell(Paint(g, ms[..|ms| - 1]), last.at, last.symbol)
  }

  /** The symbol of the last mark on cell `p`, if any mark is on it. */
  function TopMark(ms: seq<Mark>, p: Point): Option<char>
    decreases |ms|
  {
    if ms == [] then None
    else if ms[|ms| - 1].at == p then Some(ms[|ms| - 1].symbol)
    else TopMark(ms[..|ms| - 1], p)
  }

  /** A painted cell shows the last mark drawn on it, and the grid's own
      character where no mark was drawn. */
  lemma {:induction false} PaintAt(g: Cells, ms: seq<Mark>, p: Point)
    requires MarksInGrid(g, ms) && InGrid(g, p)
    ensures Paint(g, ms)[p.y][p.x] == TopMark(ms, p).GetOr(g[p.y][p.x])
    decreases |ms|
  {
    if ms != [] {
      PaintAt(g, ms[..|ms| - 1], p);
    }
  }
}
