/** Small building blocks shared by the engines and the key handlers:
    an Option type, the bounded message log and decimal digit strings. */
module Util {

  datatype Option<+T> = None | Some(value: T) {
    function GetOr(default: T): T {
      match this
      case Some(v) => v
      case None => default
    }
  }

  // ---------------------------------------------------------------------
  // Bounded message log: `add_message` appends and then drops the oldest
  // entry once the log holds more than ten.
  // ---------------------------------------------------------------------

  const MaxMessages: nat := 10

  /** The log after one `add_message(m)`. */
  function Logged<T>(log: seq<T>, m: T): (r: seq<T>)
    ensures |r| == if |log| < MaxMessages then |log| + 1 else |log|
    ensures r[|r| - 1] == m
  {
    var s := log + [m];
    if |s| > MaxMessages then s[1..] else s
  }

  /** The log after calling `add_message` on each of `ms` in turn. */
  function LoggedAll<T>(log: seq<T>, ms: seq<T>): seq<T>
    decreases |ms|
  {
    if ms == [] then log else LoggedAll(Logged(log, ms[0]), ms[1..])
  }

  lemma LoggedAllSingle<T>(log: seq<T>, m: T)
    ensures LoggedAll(log, [m]) == Logged(log, m)
  {
    assert [m][1..] == [];
  }

  /** Logging a list and then one more message is logging the longer list. */
  lemma {:induction false} LoggedAllSnoc<T>(log: seq<T>, ms: seq<T>, m: T)
    ensures LoggedAll(log, ms + [m]) == Logged(LoggedAll(log, ms), m)
    decreases |ms|
  {
    if ms == [] {
      assert [] + [m] == [m];
    } else {
      assert (ms + [m])[1..] == ms[1..] + [m];
      LoggedAllSnoc(Logged(log, ms[0]), ms[1..], m);
    }
  }

  /** The last `n` elements of `s` (all of it when it is shorter). */
  function LastN<T>(s: seq<T>, n: nat): (r: seq<T>)
    ensures |r| <= n && |r| <= |s|
    ensures |s| <= n ==> r == s
  {
    if |s| > n then s[|s| - n..] else s
  }

  lemma LastNOfLastN<T>(s: seq<T>, t: seq<T>, n: nat)
    ensures LastN(LastN(s, n) + t, n) == LastN(s + t, n)
  {
    if |s| > n {
      var u := s[|s| - n..];
      if |u + t| > n {
        assert (u + t)[|u + t| - n..] == (s + t)[|s + t| - n..];
      } else {
        assert t == [];
        assert s + t == s;
      }
    }
  }

  /** Appending any number of messages to a log that respects the bound
      keeps exactly the ten most recent of the old log followed by the new
      ones: the bound holds and nothing but the oldest entries is lost. */
  lemma {:induction false} LoggedAllKeepsNewest<T>(log: seq<T>, ms: seq<T>)
    requires |log| <= MaxMessages
    ensures LoggedAll(log, ms) == LastN(log + ms, MaxMessages)
    ensures |LoggedAll(log, ms)| <= MaxMessages
    decreases |ms|
  {
    if ms == [] {
      assert log + ms == log;
    } else {
      var l1 := Logged(log, ms[0]);
      assert l1 == LastN(log + [ms[0]], MaxMessages);
      LoggedAllKeepsNewest(l1, ms[1..]);
      LastNOfLastN(log + [ms[0]], ms[1..], MaxMessages);
      assert log + [ms[0]] + ms[1..] == log + ms;
    }
  }

  /** Python's `list.remove(v)`: drop the first element equal to `v`; the
      caller makes sure `v` is there (otherwise Python raises). */
  function RemoveFirst<T(==)>(s: seq<T>, v: T): (r: seq<T>)
    requires v in s
    ensures |r| == |s| - 1
    decreases |s|
  {
    if s[0] == v then s[1..]
    else [s[0]] + RemoveFirst(s[1..], v)
  }

  /** Exactly one copy of `v` goes. */
  lemma {:induction false} RemoveFirstMultiset<T>(s: seq<T>, v: T)
    requires v in s
    ensures multiset(RemoveFirst(s, v)) == multiset(s) - multiset{v}
    decreases |s|
  {
    assert s == [s[0]] + s[1..];
    if s[0] != v {
      RemoveFirstMultiset(s[1..], v);
    }
  }

  /** The index of the first element equal to `v`. */
  function IndexOf<T(==)>(s: seq<T>, v: T): (i: nat)
    requires v in s
    ensures i < |s| && s[i] == v
    ensures forall j :: 0 <= j < i ==> s[j] != v
    decreases |s|
  {
    if s[0] == v then 0 else 1 + IndexOf(s[1..], v)
  }

  /** When no element before index `i` equals `s[i]`, removing the first
      occurrence of `s[i]` removes exactly index `i`. */
  lemma {:induction false} RemoveFirstAt<T>(s: seq<T>, i: nat)
    requires i < |s| && forall j :: 0 <= j < i ==> s[j] != s[i]
    ensures RemoveFirst(s, s[i]) == s[..i] + s[i + 1..]
    decreases i
  {
    if i > 0 {
      var t := s[1..];
      assert t[i - 1] == s[i];
      RemoveFirstAt(t, i - 1);
      assert [s[0]] + (t[..i - 1] + t[i..]) == s[..i] + s[i + 1..];
    }
  }

  // ---------------------------------------------------------------------
  // Decimal digit strings, as read by Python's `str.isdigit` (restricted
  // to ASCII) and `int(...)`.
  // ---------------------------------------------------------------------

  predicate IsDigit(c: char) {
    '0' <= c <= '9'
  }

  predicate AllDigits(s: string) {
    forall i :: 0 <= i < |s| ==> IsDigit(s[i])
  }

  /** `str.isdigit()` on a whole key: non-empty and every character a digit. */
  predicate IsDigitKey(s: string) {
    |s| > 0 && AllDigits(s)
  }

  /** `int(s)` for a string of decimal digits. The value is zero exactly
      when every digit is '0'. */
  function DecimalValue(s: string): (r: nat)
    requires AllDigits(s)
    ensures r == 0 <==> forall i :: 0 <= i < |s| ==> s[i] == '0'
    decreases |s|
  {
    if s == [] then 0
    else
      var prefix := s[..|s| - 1];
      assert forall i :: 0 <= i < |prefix| ==> prefix[i] == s[i];
      DecimalValue(prefix) * 10 + (s[|s| - 1] as int - '0' as int)
  }

  /** `str(n)` for an integer. */
  function DecimalString(n: int): (r: string)
    ensures |r| >= 1
    ensures n >= 0 ==> AllDigits(r)
    ensures n < 0 ==> r[0] == '-'
    decreases if n < 0 then -n + 1 else n
  {
    if n < 0 then "-" + DecimalString(-n)
    else if n < 10 then [('0' as int + n) as char]
    else DecimalString(n / 10) + [('0' as int + n % 10) as char]
  }

  /** Reading back what `str` wrote gives the number again, so distinct
      non-negative level numbers give distinct keys. */
  lemma {:induction false} DecimalRoundTrip(n: nat)
    ensures AllDigits(DecimalString(n))
    ensures DecimalValue(DecimalString(n)) == n
    decreases n
  {
    if n >= 10 {
      DecimalRoundTrip(n / 10);
      var s := DecimalString(n / 10);
      var t := s + [('0' as int + n % 10) as char];
      assert t[..|t| - 1] == s;
    }
  }
}
