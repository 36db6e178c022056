/** The modal key-chord parser (src/core/vim_logic.py): keys come in one at
    a time; the parser accumulates a register prefix, a count and an
    operator, and emits mode changes and actions. The two callbacks of the
    original become a returned list of events, in the order they fire. */
module VimLogic {
  import opened Util
  import opened Models

  /** What the parser reports: a mode change or one of the actions, each
      with the parameters it passes. */
  datatype Event =
    | ModeChange(mode: GameMode)
    | RegexAttack(command: string)
    | Yank(reg: string, count: int)
    | Put(reg: string, count: int)
    | DeleteLine(count: int)
    | DeleteWord(count: int)
    | Move(motion: string, count: int)
    | SearchJump(kind: string, target: string)

  /** The pending state of the parser. In `operator` and `activeRegister`
      the empty string stands for Python's `None`: both are falsy, which is
      all the parser ever asks of them. */
  datatype Chord = Chord(
    buffer: string,
    countStr: string,
    operator: string,
    pendingSearch: Option<string>,
    activeRegister: string,
    waitingForReg: bool)
  {
    /** The count is a digit string; only `d` is ever an operator; the
        register prefix is armed only while no register is chosen. */
    predicate Valid() {
      AllDigits(countStr) && (operator == "" || operator == "d") &&
      (waitingForReg ==> activeRegister == "")
    }

    /** `int(count_str) if count_str else 1`. */
    function Count(): int
      requires Valid()
    {
      if countStr == "" then 1 else DecimalValue(countStr)
    }

    /** The register an action names: the chosen one, else `"`. */
    function Register(): string {
      if activeRegister == "" then "\"" else activeRegister
    }

    /** `format_buffer`: register prefix, count and operator, in that order.
        It is empty exactly when nothing is pending among the three. */
    function Format(): (r: string)
      ensures r == "" <==> activeRegister == "" && countStr == "" && operator == ""
      ensures activeRegister != "" ==> r[0] == '"'
    {
      (if activeRegister != "" then "\"" + activeRegister else "") + countStr + operator
    }
  }

  /** The state after `reset`. */
  const Cleared := Chord("", "", "", None, "", false)

  /** The plain motions. */
  const Motions: seq<string> := ["h", "j", "k", "l", "0", "$"]

  /** `s[:-1]`. */
  function DropLast(s: string): (r: string)
    ensures |s| > 0 ==> r == s[..|s| - 1]
    ensures |s| == 0 ==> r == ""
  {
    if |s| == 0 then s else s[..|s| - 1]
  }

  /** The chord state, the returned display and the events fired after
      `handle_key(key, mode)` from state `c`. */
  function Next(c: Chord, key: string, mode: GameMode): (r: (Chord, string, seq<Event>))
    requires c.Valid()
    ensures r.0.Valid()
  {
    if key == "escape" then (Cleared, "", [ModeChange(Normal)])
    else if mode == Command then
      if key == "enter" then (Cleared, "", [RegexAttack(c.buffer), ModeChange(Normal)])
      else
        var b := if key == "backspace" then DropLast(c.buffer) else c.buffer + key;
        (c.(buffer := b), ":" + b, [])
    else if key == "\"" && c.activeRegister == "" then (c.(waitingForReg := true), "\"", [])
    else if c.waitingForReg then (c.(activeRegister := key, waitingForReg := false), "\"" + key, [])
    else if c.pendingSearch.Some? then (Cleared, "", [SearchJump(c.pendingSearch.value, key)])
    else if IsDigitKey(key) && !(key == "0" && c.countStr == "") then
      var d := c.(countStr := c.countStr + key);
      (d, d.countStr, [])
    else Dispatch(c, key)
  }

  /** The operators, motions and mode keys, with the count read from `c`;
      the display is the formatted prefix left afterwards. */
  function Dispatch(c: Chord, key: string): (r: (Chord, string, seq<Event>))
    requires c.Valid()
    ensures r.0.Valid()
  {
    var n := c.Count();
    var after: (Chord, seq<Event>) :=
      if key == "y" then (Cleared, [Yank(c.Register(), n)])
      else if key == "p" then (Cleared, [Put(c.Register(), n)])
      else if key == "d" then
        (if c.operator == "d" then (Cleared, [DeleteLine(n)]) else (c.(operator := "d"), []))
      else if key == "w" then (Cleared, [if c.operator == "d" then DeleteWord(n) else Move("w", n)])
      else if key in Motions then (Cleared, [Move(key, n)])
      else if key == ":" then (Cleared, [ModeChange(Command)])
      else if key == "v" then (Cleared, [ModeChange(Visual)])
      else (c, []);
    (after.0, after.0.Format(), after.1)
  }

  class VimParser {
    var buffer: string
    var countStr: string
    var operator: string
    var pendingSearch: Option<string>
    var activeRegister: string
    var waitingForReg: bool

    function State(): Chord
      reads this
    {
      Chord(buffer, countStr, operator, pendingSearch, activeRegister, waitingForReg)
    }

    ghost predicate Valid()
      reads this
    {
      State().Valid()
    }

    constructor ()
      ensures State() == Cleared
    {
      buffer, countStr, operator := "", "", "";
      pendingSearch, activeRegister, waitingForReg := None, "", false;
    }

    /** `reset`: every pending field back to empty. */
    method Reset()
      modifies this
      ensures State() == Cleared
    {
      buffer := "";
      countStr := "";
      operator := "";
      pendingSearch := None;
      activeRegister := "";
      waitingForReg := false;
    }

    /** `handle_key`: returns the display string and the events fired. */
    method HandleKey(key: string, mode: GameMode) returns (display: string, events: seq<Event>)
      requires Valid()
      modifies this
      ensures Valid()
      ensures (State(), display, events) == Next(old(State()), key, mode)
    {
      if key == "escape" {
        Reset();
        return "", [ModeChange(Normal)];
      }

      if mode == Command {
        if key == "enter" {
          var command := buffer;
          Reset();
          assert [RegexAttack(command)] + [ModeChange(Normal)] == [RegexAttack(command), ModeChange(Normal)];
          return "", [RegexAttack(command)] + [ModeChange(Normal)];
        } else if key == "backspace" {
          buffer := DropLast(buffer);
        } else {
          buffer := buffer + key;
        }
        return ":" + buffer, [];
      }

      // Register prefix
      if key == "\"" && activeRegister == "" {
        waitingForReg := true;
        return "\"", [];
      }

      if waitingForReg {
        activeRegister := key;
        waitingForReg := false;
        return "\"" + key, [];
      }

      if pendingSearch.Some? {
        events := [SearchJump(pendingSearch.value, key)];
        Reset();
        return "", events;
      }

      if IsDigitKey(key) && !(key == "0" && countStr == "") {
        countStr := countStr + key;
        return countStr, [];
      }

      display, events := Act(key);
    }

    /** The rest of `handle_key` once the key is neither a register prefix
        nor a digit: operators, motions and mode keys. */
    method Act(key: string) returns (display: string, events: seq<Event>)
      requires Valid()
      modifies this
      ensures (State(), display, events) == Dispatch(old(State()), key)
    {
      var count := if countStr == "" then 1 else DecimalValue(countStr);
      var reg := if activeRegister == "" then "\"" else activeRegister;
      events := [];

      // Operators
      if key == "y" {
        events := [Yank(reg, count)];
        Reset();
      } else if key == "p" {
        events := [Put(reg, count)];
        Reset();
      } else if key == "d" {
        if operator == "d" {
          events := [DeleteLine(count)];
          Reset();
        } else {
          operator := "d";
        }
      } else if key == "w" {
        if operator == "d" {
          events := [DeleteWord(count)];
        } else {
          events := [Move("w", count)];
        }
        Reset();
      } else if key in Motions {
        // Motions
        events := [Move(key, count)];
        Reset();
      } else if key == ":" {
        // Modes
        events := [ModeChange(Command)];
        Reset();
      } else if key == "v" {
        events := [ModeChange(Visual)];
        Reset();
      }

      display := State().Format();
    }
  }

  // ---------------------------------------------------------------------
  // Properties of the parser
  // ---------------------------------------------------------------------

  /** Escape clears every pending field in any mode and asks for Normal. */
  lemma EscapeResets(c: Chord, mode: GameMode)
    requires c.Valid()
    ensures Next(c, "escape", mode) == (Cleared, "", [ModeChange(Normal)])
  {
  }

  /** In Command mode keys edit the command line; enter submits it as a
      regex attack and returns to Normal. */
  lemma CommandLine(c: Chord, key: string)
    requires c.Valid() && key != "escape"
    ensures var r := Next(c, key, Command);
      && (key == "enter" ==> r == (Cleared, "", [RegexAttack(c.buffer), ModeChange(Normal)]))
      && (key == "backspace" ==>
            r.0 == c.(buffer := r.0.buffer) && r.2 == [] &&
            (c.buffer == "" ==> r.0.buffer == "") &&
            (c.buffer != "" ==> r.0.buffer + [c.buffer[|c.buffer| - 1]] == c.buffer))
      && (key != "enter" && key != "backspace" ==> r.0 == c.(buffer := c.buffer + key) && r.2 == [])
      && (key != "enter" ==> r.1 == ":" + r.0.buffer)
  {
    if key == "backspace" && c.buffer != "" {
      var b := c.buffer;
      assert b[..|b| - 1] + [b[|b| - 1]] == b;
    }
  }

  /** Every event but a mode change and the (unreachable) search jump
      carries the count typed before it, 1 when none was typed. */
  lemma EventsCarryCount(c: Chord, key: string, mode: GameMode)
    requires c.Valid()
    ensures forall e :: e in Next(c, key, mode).2 && (e.Yank? || e.Put? || e.DeleteLine? || e.DeleteWord? || e.Move?) ==>
      e.count == (if c.countStr == "" then 1 else DecimalValue(c.countStr))
  {
    if !Dispatched(c, key, mode) {
      assert forall e :: e in Next(c, key, mode).2 ==> e.ModeChange? || e.RegexAttack? || e.SearchJump?;
    } else {
      assert Next(c, key, mode) == Dispatch(c, key);
      DispatchCarries(c, key);
    }
  }

  /** What the operator and motion table fires names the typed count and
      the chosen register. */
  lemma DispatchCarries(c: Chord, key: string)
    requires c.Valid()
    ensures forall e :: e in Dispatch(c, key).2 && (e.Yank? || e.Put? || e.DeleteLine? || e.DeleteWord? || e.Move?) ==>
      e.count == c.Count()
    ensures forall e :: e in Dispatch(c, key).2 && (e.Yank? || e.Put?) ==> e.reg == c.Register()
  {
    var evs := Dispatch(c, key).2;
    assert |evs| <= 1;
  }

  /** Whether `key` reaches the operator and motion table. */
  predicate Dispatched(c: Chord, key: string, mode: GameMode) {
    && key != "escape" && mode != Command
    && !(key == "\"" && c.activeRegister == "") && !c.waitingForReg && c.pendingSearch.None?
    && !(IsDigitKey(key) && !(key == "0" && c.countStr == ""))
  }

  /** Yank and put name the chosen register, `"` when none was chosen. */
  lemma EventsCarryRegister(c: Chord, key: string, mode: GameMode)
    requires c.Valid()
    ensures forall e :: e in Next(c, key, mode).2 && (e.Yank? || e.Put?) ==>
      e.reg == (if c.activeRegister == "" then "\"" else c.activeRegister)
  {
    if !Dispatched(c, key, mode) {
      assert forall e :: e in Next(c, key, mode).2 ==> !e.Yank? && !e.Put?;
    } else {
      assert Next(c, key, mode) == Dispatch(c, key);
      DispatchCarries(c, key);
    }
  }

  /** A register chosen with `"` is what the next yank names. */
  lemma {:induction false} RegisterThenYank(c: Chord, k: string)
    requires c.Valid() && c.activeRegister == "" && c.pendingSearch.None?
    requires k != "" && k != "\"" && k != "escape"
    ensures var c1 := Next(c, "\"", Normal);
      var c2 := Next(c1.0, k, Normal);
      var c3 := Next(c2.0, "y", Normal);
      && c1.1 == "\"" && c2.1 == "\"" + k
      && c3 == (Cleared, "", [Yank(k, if c.countStr == "" then 1 else DecimalValue(c.countStr))])
  {
    var c1 := Next(c, "\"", Normal).0;
    assert c1 == c.(waitingForReg := true);
    var c2 := Next(c1, k, Normal).0;
    assert c2 == c.(activeRegister := k, waitingForReg := false);
    assert c2.Register() == k && c2.Count() == c.Count();
    assert "y"[0] == 'y';
  }

  /** Digits build the count; `0` is a motion unless it continues a count. */
  lemma Digits(c: Chord, key: string, mode: GameMode)
    requires c.Valid() && mode != Command && key != "\"" && !c.waitingForReg && c.pendingSearch.None?
    requires IsDigitKey(key)
    ensures var r := Next(c, key, mode);
      && (key != "0" || c.countStr != "" ==> r == (c.(countStr := c.countStr + key), c.countStr + key, []))
      && (key == "0" && c.countStr == "" ==> r == (Cleared, "", [Move("0", 1)]))
  {
    assert IsDigit(key[0]) && "escape"[0] == 'e';
  }

  /** The `d` operator: alone it waits; `d` again deletes the line, `w`
      deletes a word and any other motion (`0` only when no count is
      pending, since it otherwise extends the count) is a plain move. */
  lemma {:induction false} DeleteOperator(c: Chord, key: string)
    requires c.Valid() && c.operator == "" && !c.waitingForReg && c.pendingSearch.None?
    ensures var r := Next(c, "d", Normal);
      && r == (c.(operator := "d"), c.(operator := "d").Format(), [])
      && (key == "d" ==> Next(r.0, key, Normal) == (Cleared, "", [DeleteLine(c.Count())]))
      && (key == "w" ==> Next(r.0, key, Normal) == (Cleared, "", [DeleteWord(c.Count())]))
      && (key in Motions && key != "0" ==> Next(r.0, key, Normal) == (Cleared, "", [Move(key, c.Count())]))
      && (key == "0" && c.countStr == "" ==> Next(r.0, key, Normal) == (Cleared, "", [Move("0", 1)]))
  {
    var d := c.(operator := "d");
    assert d.Count() == c.Count();
    assert "d"[0] == 'd' && "w"[0] == 'w';
    if key in Motions && key != "0" {
      assert !IsDigitKey(key);
    }
  }

  /** Whatever fires leaves the parser cleared and the display empty. */
  lemma EmitResets(c: Chord, key: string, mode: GameMode)
    requires c.Valid()
    ensures var r := Next(c, key, mode);
      r.2 != [] ==> r.0 == Cleared && r.1 == ""
  {
  }

  /** A key the parser does not know changes nothing and redisplays the
      pending prefix. */
  lemma UnknownKey(c: Chord, key: string, mode: GameMode)
    requires c.Valid() && mode != Command && !c.waitingForReg && c.pendingSearch.None?
    requires key != "escape" && key != "\"" && !IsDigitKey(key)
    requires key !in ["y", "p", "d", "w", ":", "v"] && key !in Motions
    ensures Next(c, key, mode) == (c, c.Format(), [])
  {
  }

  /** The search state is never armed, so its branch is dead: from a state
      without one, no key arms it and no search jump ever fires. */
  lemma SearchNeverArmed(c: Chord, key: string, mode: GameMode)
    requires c.Valid() && c.pendingSearch.None?
    ensures Next(c, key, mode).0.pendingSearch.None?
    ensures forall e :: e in Next(c, key, mode).2 ==> !e.SearchJump?
  {
  }
}
