/** The first key handler (src/vim_handler.py): keys pile up in a buffer
    that is re-read after every key as a leading count followed by a
    command; a recognised command calls back and clears the buffer. The
    two callbacks become a returned list of calls. */
module VimHandler {
  import opened Util

  /** A callback invocation: `move_callback(dx, dy, count)` or
      `action_callback(name)`. */
  datatype Call = MoveBy(dx: int, dy: int, count: int) | Action(name: string)

  /** The length of the leading run of digits of `b`. */
  function DigitPrefix(b: string): (n: nat)
    ensures n <= |b|
    ensures forall j :: 0 <= j < n ==> IsDigit(b[j])
    ensures n < |b| ==> !IsDigit(b[n])
    decreases |b|
  {
    if b == [] || !IsDigit(b[0]) then 0 else 1 + DigitPrefix(b[1..])
  }

  /** `int(count_str) if count_str else 1`, with `count_str` the leading
      digits of `b`. */
  function CountOf(b: string): int {
    var n := DigitPrefix(b);
    if n == 0 then 1 else DecimalValue(b[..n])
  }

  /** What the buffer holds after its leading count. */
  function CommandOf(b: string): string {
    b[DigitPrefix(b)..]
  }

  /** The calls a non-empty command makes; `rowLen` is `len(map_row)`. */
  function Calls(cmd: string, count: int, rowLen: int, playerX: int): seq<Call> {
    if cmd == "h" then [MoveBy(-1, 0, count)]
    else if cmd == "j" then [MoveBy(0, 1, count)]
    else if cmd == "k" then [MoveBy(0, -1, count)]
    else if cmd == "l" then [MoveBy(1, 0, count)]
    else if cmd == "w" then [MoveBy(3, 0, count)]
    else if cmd == "b" then [MoveBy(-3, 0, count)]
    else if cmd == "0" then [MoveBy(-playerX + 1, 0, 1)]
    else if cmd == "$" then [MoveBy(rowLen - playerX - 2, 0, 1)]
    else if cmd == "x" then [Action("delete")]
    else if cmd == "dw" || cmd == "dd" then [Action("delete")]
    else []
  }

  /** The commands that clear the buffer once run. */
  const Executed: seq<string> := ["h", "j", "k", "l", "w", "b", "0", "$", "x"]

  /** The buffer kept after command `cmd` ran on buffer `b`. */
  function Kept(b: string, cmd: string): string {
    if cmd in Executed || |b| > 4 then ""
    else if cmd in ["dw", "dd"] then ""
    else b
  }

  /** The buffer and the calls after `handle_key(key, map_row, player_x)`
      on buffer `buffer`, `map_row` having `rowLen` cells. */
  function Step(buffer: string, key: string, rowLen: int, playerX: int): (string, seq<Call>) {
    if key == "escape" then ("", [])
    else
      var b := buffer + key;
      var cmd := CommandOf(b);
      if cmd == "" then (b, [])
      else (Kept(b, cmd), Calls(cmd, CountOf(b), rowLen, playerX))
  }

  class VimHandler {
    var buffer: string
    var mode: string

    constructor ()
      ensures buffer == "" && mode == "NORMAL"
    {
      buffer := "";
      mode := "NORMAL";
    }

    /** `handle_key`: returns the buffer shown after the key, and the
        callbacks made. */
    method HandleKey(key: string, mapRow: seq<string>, playerX: int) returns (shown: string, calls: seq<Call>)
      modifies this`buffer
      ensures (buffer, calls) == Step(old(buffer), key, |mapRow|, playerX)
      ensures shown == buffer
    {
      if key == "escape" {
        buffer := "";
        return "", [];
      }

      buffer := buffer + key;

      var countStr, cmdIdx := ParseCount(buffer);
      var count := if countStr == "" then 1 else DecimalValue(countStr);
      var cmd := buffer[cmdIdx..];

      if cmd == "" {
        return buffer, [];
      }

      calls := [];
      if cmd == "h" {
        calls := [MoveBy(-1, 0, count)];
      } else if cmd == "j" {
        calls := [MoveBy(0, 1, count)];
      } else if cmd == "k" {
        calls := [MoveBy(0, -1, count)];
      } else if cmd == "l" {
        calls := [MoveBy(1, 0, count)];
      } else if cmd == "w" {
        calls := [MoveBy(3, 0, count)];
      } else if cmd == "b" {
        calls := [MoveBy(-3, 0, count)];
      } else if cmd == "0" {
        calls := [MoveBy(-playerX + 1, 0, 1)];
      } else if cmd == "$" {
        calls := [MoveBy(|mapRow| - playerX - 2, 0, 1)];
      } else if cmd == "x" {
        calls := [Action("delete")];
      } else if cmd == "dw" || cmd == "dd" {
        calls := [Action("delete")];
      }

      // Clear the buffer once a command ran or it grew too long
      if cmd in Executed || |buffer| > 4 {
        buffer := "";
      } else if cmd in ["dw", "dd"] {
        buffer := "";
      }
      shown := buffer;
    }
  }

  /** The count loop of `handle_key`: the leading digits of `b` and where
      the command starts. */
  method ParseCount(b: string) returns (countStr: string, cmdIdx: nat)
    ensures cmdIdx == DigitPrefix(b) && countStr == b[..cmdIdx]
  {
    countStr := "";
    cmdIdx := 0;
    while cmdIdx < |b| && IsDigit(b[cmdIdx])
      invariant cmdIdx <= |b|
      invariant countStr == b[..cmdIdx]
      invariant DigitPrefix(b) == cmdIdx + DigitPrefix(b[cmdIdx..])
    {
      assert b[cmdIdx..][1..] == b[cmdIdx + 1..];
      countStr := countStr + [b[cmdIdx]];
      cmdIdx := cmdIdx + 1;
    }
  }

  // ---------------------------------------------------------------------
  // Properties of the handler
  // ---------------------------------------------------------------------

  /** The buffer splits into its leading count and its command, and the
      command never starts with a digit. */
  lemma CountAndCommand(b: string)
    ensures b == b[..DigitPrefix(b)] + CommandOf(b)
    ensures AllDigits(b[..DigitPrefix(b)])
    ensures CommandOf(b) == "" || !IsDigit(CommandOf(b)[0])
    ensures CountOf(b) == (if DigitPrefix(b) == 0 then 1 else DecimalValue(b[..DigitPrefix(b)]))
  {
  }

  /** A `0` is always read as a count digit, so the `0` motion never runs. */
  lemma ZeroIsNeverACommand(buffer: string, key: string)
    requires key != "escape"
    ensures CommandOf(buffer + key) != "0"
  {
    var cmd := CommandOf(buffer + key);
    if cmd == "0" {
      assert IsDigit(cmd[0]);
    }
  }

  /** An all-digit buffer only grows: no call, and it stays whatever its
      length. */
  lemma DigitsAreKept(buffer: string, key: string, rowLen: int, playerX: int)
    requires key != "escape" && AllDigits(buffer + key)
    ensures Step(buffer, key, rowLen, playerX) == (buffer + key, [])
  {
    assert DigitPrefix(buffer + key) == |buffer + key|;
  }

  /** The movement table: each motion moves once, by its own step, with
      the typed count, and the buffer is cleared. */
  lemma Motions(buffer: string, key: string, rowLen: int, playerX: int)
    requires key != "escape"
    ensures var b := buffer + key;
      var r := Step(buffer, key, rowLen, playerX);
      var n := CountOf(b);
      && (CommandOf(b) == "h" ==> r == ("", [MoveBy(-1, 0, n)]))
      && (CommandOf(b) == "j" ==> r == ("", [MoveBy(0, 1, n)]))
      && (CommandOf(b) == "k" ==> r == ("", [MoveBy(0, -1, n)]))
      && (CommandOf(b) == "l" ==> r == ("", [MoveBy(1, 0, n)]))
      && (CommandOf(b) == "w" ==> r == ("", [MoveBy(3, 0, n)]))
      && (CommandOf(b) == "b" ==> r == ("", [MoveBy(-3, 0, n)]))
      && (CommandOf(b) == "$" ==> r == ("", [MoveBy(rowLen - playerX - 2, 0, 1)]))
  {
  }

  /** `x`, `dw` and `dd` each ask for one delete and clear the buffer. */
  lemma Deletes(buffer: string, key: string, rowLen: int, playerX: int)
    requires key != "escape"
    requires CommandOf(buffer + key) in ["x", "dw", "dd"]
    ensures Step(buffer, key, rowLen, playerX) == ("", [Action("delete")])
  {
  }

  /** Any other command calls nothing; the buffer survives while it has at
      most four characters and is dropped after that. */
  lemma UnknownCommand(buffer: string, key: string, rowLen: int, playerX: int)
    requires key != "escape"
    requires var cmd := CommandOf(buffer + key);
      cmd != "" && cmd !in Executed && cmd !in ["dw", "dd"]
    ensures Step(buffer, key, rowLen, playerX) == (if |buffer + key| > 4 then "" else buffer + key, [])
  {
  }

  /** Whenever a command follows the count, what is shown afterwards has
      at most four characters. */
  lemma ShownIsShort(buffer: string, key: string, rowLen: int, playerX: int)
    requires key != "escape" && CommandOf(buffer + key) != ""
    ensures |Step(buffer, key, rowLen, playerX).0| <= 4
  {
  }

  /** Between keys the buffer is a bare count or at most four characters
      long, starting from the empty buffer. */
  lemma BufferStaysShort(buffer: string, key: string, rowLen: int, playerX: int)
    requires AllDigits(buffer) || |buffer| <= 4
    ensures var b := Step(buffer, key, rowLen, playerX).0;
      AllDigits(b) || |b| <= 4
  {
    if key != "escape" {
      var b := buffer + key;
      if CommandOf(b) == "" {
        assert DigitPrefix(b) == |b|;
        assert b[..|b|] == b;
      }
    }
  }
}
