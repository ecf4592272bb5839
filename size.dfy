/** The split-size token accepted by `validSize` (index.js:27-29): the
    regular expression `^[0-9]+(k|m|g)$` with the case-insensitive flag, run
    here as the automaton a regular-expression engine would build for it. */
module SplitSize {
  import opened Text

  /** The unit letters the case-insensitive alternative `(k|m|g)` matches. */
  predicate IsUnit(c: char) {
    c == 'k' || c == 'm' || c == 'g' || c == 'K' || c == 'M' || c == 'G'
  }

  /** The token, stated declaratively: one or more digits, then exactly one
      unit letter, and nothing else. */
  predicate IsSizeToken(s: string) {
    |s| >= 2 && AllDigits(s[..|s| - 1]) && IsUnit(s[|s| - 1])
  }

  /** States of the automaton for `^[0-9]+(k|m|g)$`. */
  datatype State = Start | Digits | Unit | Dead

  function Step(q: State, c: char): State {
    match q
    case Start => if IsDigit(c) then Digits else Dead
    case Digits => if IsDigit(c) then Digits else if IsUnit(c) then Unit else Dead
    case Unit => Dead
    case Dead => Dead
  }

  /** The state reached after reading `s` from `q`. */
  function Run(q: State, s: string): State
    decreases |s|
  {
    if s == [] then q else Run(Step(q, s[0]), s[1..])
  }

  /** `validSize(size)`: the whole string drives the automaton from its start
      state into its accepting state. */
  function ValidSize(s: string): (ok: bool)
    ensures ok <==> IsSizeToken(s)
  {
    RunCorrect(s);
    Run(Start, s) == Unit
  }

  /** What each state means: `Digits` after a non-empty run of digits, `Unit`
      after such a run and a unit letter, `Dead` once no completion can match. */
  ghost predicate Reached(q: State, s: string) {
    match q
    case Start => s == []
    case Digits => s != [] && AllDigits(s)
    case Unit => IsSizeToken(s)
    case Dead => s != [] && !AllDigits(s) && !IsSizeToken(s)
  }

  lemma {:induction false} DeadStays(s: string)
    ensures Run(Dead, s) == Dead
    decreases |s|
  {
    if s != [] { DeadStays(s[1..]); }
  }

  /** Every extension of a string that is neither a digit run nor a token is
      neither again, so `Dead` keeps its meaning. */
  lemma StepPreserves(q: State, s: string, c: char)
    requires Reached(q, s)
    ensures Reached(Step(q, c), s + [c])
  {
    var t := s + [c];
    assert t[..|t| - 1] == s;
    if q == Dead {
      var k :| 0 <= k < |s| && !IsDigit(s[k]);
      assert t[k] == s[k];
      if |s| >= 2 {
        assert t[..|t| - 1][k] == s[k];
      }
    } else if q == Unit {
      assert t[|s| - 1] == s[|s| - 1] && !IsDigit(s[|s| - 1]);
      assert !AllDigits(s);
    } else if q == Digits && !IsDigit(c) {
      assert t[|s|] == c && t[|t| - 1] == c;
      if IsUnit(c) {
        assert AllDigits(t[..|t| - 1]);
        assert IsSizeToken(t);
        assert Step(q, c) == Unit;
      } else {
        assert !AllDigits(t);
        assert !IsSizeToken(t);
        assert Step(q, c) == Dead;
      }
    } else {
      assert t[|s|] == c;
      assert forall k :: 0 <= k < |s| ==> t[k] == s[k];
    }
  }

  lemma {:induction false} RunFrom(q: State, done: string, s: string)
    requires Reached(q, done)
    ensures Reached(Run(q, s), done + s)
    decreases |s|
  {
    if s == [] {
      assert done + s == done;
    } else {
      StepPreserves(q, done, s[0]);
      assert done + s == (done + [s[0]]) + s[1..];
      RunFrom(Step(q, s[0]), done + [s[0]], s[1..]);
    }
  }

  lemma RunCorrect(s: string)
    ensures Run(Start, s) == Unit <==> IsSizeToken(s)
  {
    RunFrom(Start, [], s);
    assert [] + s == s;
  }

  /** The examples the source's error message and usage text rely on, and the
      near misses it rejects. */
  lemma Examples()
    ensures ValidSize("0k") && ValidSize("500M") && ValidSize("2g") && ValidSize("100k")
    ensures !ValidSize("") && !ValidSize("g") && !ValidSize("2gb") && !ValidSize("2 g")
    ensures !ValidSize("-1g") && !ValidSize("1.5g")
  {
    assert "500M"[..3] == "500";
    assert "2gb"[..2] == "2g";
    assert "2 g"[..2] == "2 ";
    assert "-1g"[..2] == "-1";
    assert "1.5g"[..3] == "1.5";
  }
}
