/** Score bookkeeping (src/mechanics/engines.py): the best keystroke count
    per level, kept in a dictionary keyed by the level number's decimal
    text, and the par-relative rating of a finished level. */
module Scoring {
  import opened Util

  /** The scores after recording `strokes` for level key `id`: stored when
      the level has no score yet or the new count is lower. The stored best
      is the minimum of the old one and the new count, and no other level's
      entry appears, disappears or changes. */
  function KeptBest(scores: map<string, int>, id: string, strokes: int): (r: map<string, int>)
    ensures id in r
    ensures id !in scores ==> r[id] == strokes
    ensures id in scores ==> r[id] == (if strokes < scores[id] then strokes else scores[id])
    ensures r.Keys == scores.Keys + {id}
    ensures forall k :: k in scores && k != id ==> r[k] == scores[k]
  {
    if id !in scores || strokes < scores[id] then scores[id := strokes] else scores
  }

  /** A stored best never increases. */
  lemma BestNeverIncreases(scores: map<string, int>, id: string, strokes: int)
    requires id in scores
    ensures KeptBest(scores, id, strokes)[id] <= scores[id]
    ensures KeptBest(scores, id, strokes)[id] <= strokes
  {
  }

  /** Recording the same count twice changes nothing the second time, and
      two counts for the same level may be recorded in either order. */
  lemma KeptBestOrderFree(scores: map<string, int>, id: string, a: int, b: int)
    ensures KeptBest(KeptBest(scores, id, a), id, a) == KeptBest(scores, id, a)
    ensures KeptBest(KeptBest(scores, id, a), id, b) == KeptBest(KeptBest(scores, id, b), id, a)
  {
  }

  /** Distinct level numbers have distinct keys. */
  lemma {:induction false} DistinctKeys(a: int, b: int)
    requires a != b
    ensures DecimalString(a) != DecimalString(b)
    decreases if a < 0 || b < 0 then 1 else 0
  {
    if a >= 0 && b >= 0 {
      DecimalRoundTrip(a);
      DecimalRoundTrip(b);
    } else if a < 0 && b < 0 {
      DistinctKeys(-a, -b);
      assert DecimalString(a)[1..] == DecimalString(-a);
      assert DecimalString(b)[1..] == DecimalString(-b);
    } else if a < 0 {
      assert AllDigits(DecimalString(b));
    } else {
      assert AllDigits(DecimalString(a));
    }
  }

  /** Saving a score for one level leaves every other level's best alone. */
  lemma SaveLeavesOtherLevels(scores: map<string, int>, level: int, other: int, strokes: int)
    requires level != other && DecimalString(other) in scores
    ensures KeptBest(scores, DecimalString(level), strokes)[DecimalString(other)] == scores[DecimalString(other)]
  {
    DistinctKeys(level, other);
  }

  /** The four tiers, best first. */
  datatype Rating = VimMaster | Efficient | Competent | Novice
  {
    function Label(): string {
      match this
      case VimMaster => "S - VIM MASTER"
      case Efficient => "A - EFFICIENT"
      case Competent => "B - COMPETENT"
      case Novice => "C - NOVICE"
    }

    function Rank(): nat {
      match this
      case VimMaster => 0
      case Efficient => 1
      case Competent => 2
      case Novice => 3
    }
  }

  /** `get_rating`: S at or under par, A up to one and a half times par, B
      up to two and a half times par, C beyond. The comparisons with 1.5
      and 2.5 are written over the integers by doubling both sides. */
  function GetRating(currentStrokes: int, parKeystrokes: int): (r: Rating)
    ensures r == VimMaster <==> currentStrokes <= parKeystrokes
    ensures r == Efficient <==> parKeystrokes < currentStrokes && 2 * currentStrokes <= 3 * parKeystrokes
    ensures r == Competent <==>
      parKeystrokes < currentStrokes && 3 * parKeystrokes < 2 * currentStrokes && 2 * currentStrokes <= 5 * parKeystrokes
    ensures r == Novice <==>
      parKeystrokes < currentStrokes && 3 * parKeystrokes < 2 * currentStrokes && 5 * parKeystrokes < 2 * currentStrokes
  {
    if currentStrokes <= parKeystrokes then VimMaster
    else if 2 * currentStrokes <= 3 * parKeystrokes then Efficient
    else if 2 * currentStrokes <= 5 * parKeystrokes then Competent
    else Novice
  }

  /** More keystrokes never earn a better tier. */
  lemma RatingMonotone(s1: int, s2: int, par: int)
    requires s1 <= s2
    ensures GetRating(s1, par).Rank() <= GetRating(s2, par).Rank()
  {
  }

  class ScoringEngine {
    var keystrokes: int
    var bestScores: map<string, int>

    /** The scores read from the score file are passed in. */
    constructor (loaded: map<string, int>)
      ensures keystrokes == 0 && bestScores == loaded
    {
      keystrokes := 0;
      bestScores := loaded;
    }

    /** `save_best`: keep the lower keystroke count for the level. */
    method SaveBest(levelNum: int, strokes: int)
      modifies this`bestScores
      ensures bestScores == KeptBest(old(bestScores), DecimalString(levelNum), strokes)
    {
      var levelId := DecimalString(levelNum);
      if levelId !in bestScores || strokes < bestScores[levelId] {
        bestScores := bestScores[levelId := strokes];
      }
    }
  }
}
