/** The engine's standard output handler and the progress bar
    (index.js:58-63, index.js:74-79): each chunk of output is searched with
    the regular expression `(\d+)%`; the first match, read as a number, is
    drawn as a 20-cell bar on the current terminal line. */
module Progress {
  import opened Common
  import opened Text

  const WIDTH: nat := 20
  const FULL: char := '\U{2588}'
  const LIGHT: char := '\U{2591}'

  /** The regular expression `(\d+)%` matches `t` from `i` to `j`: the group
      is `t[i..j]`, the percent sign is `t[j]`. */
  predicate DigitsThenPercent(t: string, i: int, j: int) {
    0 <= i < j < |t| && AllDigits(t[i..j]) && t[j] == '%'
  }

  /** The end of the run of digits that starts at `i`. */
  function RunEnd(t: string, i: nat): (e: nat)
    requires i <= |t|
    ensures i <= e <= |t| && AllDigits(t[i..e])
    ensures e < |t| ==> !IsDigit(t[e])
    decreases |t| - i
  {
    if i < |t| && IsDigit(t[i]) then
      var e := RunEnd(t, i + 1);
      assert t[i..e] == [t[i]] + t[i + 1..e];
      e
    else i
  }

  lemma DigitsAt(t: string, i: nat, j: nat)
    requires i <= j <= |t| && AllDigits(t[i..j])
    ensures forall x :: i <= x < j ==> IsDigit(t[x])
  {
    forall x | i <= x < j ensures IsDigit(t[x]) { assert t[i..j][x - i] == t[x]; }
  }

  /** Every match starts with a digit. */
  lemma MatchStartsWithDigit(t: string, a: int, b: int)
    requires DigitsThenPercent(t, a, b)
    ensures IsDigit(t[a])
  {
    DigitsAt(t, a, b);
  }

  /** A match that starts inside a run of digits ends where the run ends:
      the group is never a proper part of a longer digit string before `%`. */
  lemma MatchEndsAtRunEnd(t: string, i: nat, k: nat, j: int)
    requires i <= |t| && i <= k < RunEnd(t, i) && DigitsThenPercent(t, k, j)
    ensures j == RunEnd(t, i)
  {
    DigitsAt(t, i, RunEnd(t, i));
    DigitsAt(t, k, j);
  }

  /** The leftmost match at or after `i`, given that none starts before `i`. */
  function Scan(t: string, i: nat): (m: Option<(nat, nat)>)
    requires i <= |t|
    requires forall a, b :: DigitsThenPercent(t, a, b) ==> i <= a
    ensures m.None? ==> forall a, b :: !DigitsThenPercent(t, a, b)
    ensures m.Some? ==> DigitsThenPercent(t, m.value.0, m.value.1)
    ensures m.Some? ==> forall a, b :: DigitsThenPercent(t, a, b) ==> m.value.0 <= a
    decreases |t| - i
  {
    if i == |t| then None
    else if !IsDigit(t[i]) then
      forall a, b | DigitsThenPercent(t, a, b) ensures IsDigit(t[a]) {
        MatchStartsWithDigit(t, a, b);
      }
      Scan(t, i + 1)
    else
      var e := RunEnd(t, i);
      if e < |t| && t[e] == '%' then Some((i, e))
      else
        forall a, b | DigitsThenPercent(t, a, b) && a < e ensures b == e {
          MatchEndsAtRunEnd(t, i, a, b);
        }
        Scan(t, e)
  }

  /** `text.match(/(\d+)%/)`: the bounds of the leftmost match. */
  function FindMatch(t: string): (m: Option<(nat, nat)>)
    ensures m.None? <==> forall a, b :: !DigitsThenPercent(t, a, b)
    ensures m.Some? ==> DigitsThenPercent(t, m.value.0, m.value.1)
    ensures m.Some? ==> forall a, b :: DigitsThenPercent(t, a, b) ==> m.value.0 <= a
  {
    Scan(t, 0)
  }

  /** `parseInt(match[1])` of the leftmost match, if there is one. */
  function PercentOf(t: string): (p: Option<nat>)
    ensures p.None? <==> forall a, b :: !DigitsThenPercent(t, a, b)
  {
    match FindMatch(t)
    case None => None
    case Some((i, j)) => Some(DecimalValue(t[i..j]))
  }

  /** `Math.round(x)`, which rounds halves up, of the fraction `num / den`. */
  function RoundHalfUp(num: nat, den: nat): (r: nat)
    requires den > 0
    ensures 2 * den * r <= 2 * num + den < 2 * den * (r + 1)
  {
    (2 * num + den) / (2 * den)
  }

  /** The number of filled cells `Math.round((percent / 100) * width)`. */
  function Filled(p: nat): nat {
    RoundHalfUp(p * WIDTH, 100)
  }

  /** The filled count is the nearest cell, `(p + 2) / 5` in integers. */
  lemma FilledFormula(p: nat)
    ensures Filled(p) == (p + 2) / 5
  {
    var r := Filled(p);
    assert 200 * r <= 40 * p + 100 < 200 * (r + 1);
    assert 5 * r <= p + 2 < 5 * (r + 1);
  }

  /** More progress never draws fewer filled cells. */
  lemma FilledMonotone(p: nat, q: nat)
    requires p <= q
    ensures Filled(p) <= Filled(q)
  {
    FilledFormula(p);
    FilledFormula(q);
  }

  /** The bar fits its width exactly up to 102 percent; from 103 on the empty
      part would need a negative count. */
  lemma FilledFits(p: nat)
    ensures Filled(p) <= WIDTH <==> p <= 102
    ensures Filled(0) == 0 && Filled(100) == WIDTH
  {
    FilledFormula(p);
    FilledFormula(0);
    FilledFormula(100);
  }

  function Repeat(c: char, n: nat): (s: string)
    ensures |s| == n && forall k :: 0 <= k < n ==> s[k] == c
  {
    if n == 0 then [] else [c] + Repeat(c, n - 1)
  }

  /** The bar `"█".repeat(filled) + "░".repeat(width - filled)`: exactly 20
      cells, the filled cells first, then the empty ones. */
  function Bar(p: nat): (bar: string)
    requires p <= 102
    ensures |bar| == WIDTH && Filled(p) <= WIDTH
    ensures forall k :: 0 <= k < |bar| ==> (bar[k] == FULL <==> k < Filled(p))
    ensures forall k :: 0 <= k < |bar| ==> (bar[k] == LIGHT <==> Filled(p) <= k)
  {
    FilledFits(p);
    Repeat(FULL, Filled(p)) + Repeat(LIGHT, WIDTH - Filled(p))
  }

  /** What `renderBar(percent)` writes to the terminal: a carriage return,
      the bar in brackets, then the percentage in decimal and a percent sign. */
  function Frame(p: nat): (f: string)
    requires p <= 102
    ensures |f| == WIDTH + 5 + |NatToString(p)|
    ensures f[..2] == "\r[" && f[WIDTH + 2..WIDTH + 4] == "] " && f[|f| - 1] == '%'
    ensures f[WIDTH + 4..|f| - 1] == NatToString(p)
    ensures forall k :: 2 <= k < WIDTH + 2 ==> (f[k] == FULL <==> k - 2 < Filled(p))
  {
    var bar, num := Bar(p), NatToString(p);
    var f := "\r[" + bar + "] " + num + "%";
    assert forall k :: 2 <= k < WIDTH + 2 ==> f[k] == bar[k - 2];
    assert f[WIDTH + 4..|f| - 1] == num;
    f
  }

  /** Half way, half the cells are filled. */
  lemma FrameHalf()
    ensures Frame(50) == "\r[" + Repeat(FULL, 10) + Repeat(LIGHT, 10) + "] 50%"
  {
    FilledFormula(50);
    assert Filled(50) == 10;
    var bar := Repeat(FULL, 10) + Repeat(LIGHT, 10);
    assert Bar(50) == bar;
    assert NatToString(50) == "50";
    assert Frame(50) == "\r[" + bar + "] " + "50" + "%";
  }

  /** At the start, every cell is empty. */
  lemma FrameEmpty()
    ensures Frame(0) == "\r[" + Repeat(LIGHT, 20) + "] 0%"
  {
    FilledFormula(0);
    assert Repeat(FULL, 0) == [];
  }

  /** The effect of one chunk of engine output. `Overflow` is the range error
      `"░".repeat` raises when more than 20 cells would be filled. */
  datatype ChunkEffect = Silent | Draw(frame: string) | Overflow(percent: nat)

  /** The standard output data handler of `run7z`. */
  function OnData(text: string, onProgress: bool): (eff: ChunkEffect)
    ensures eff.Silent? <==> (!onProgress || PercentOf(text).None?)
    ensures eff.Draw? <==> (onProgress && PercentOf(text).Some? && PercentOf(text).value <= 102)
    ensures eff.Draw? ==> eff.frame == Frame(PercentOf(text).value)
    ensures eff.Overflow? ==> eff.percent == PercentOf(text).value && eff.percent >= 103
  {
    match PercentOf(text)
    case None => Silent
    case Some(p) =>
      if !onProgress then Silent
      else if p <= 102 then Draw(Frame(p))
      else Overflow(p)
  }

  /** A drawn frame, read back as engine output, yields its own percentage:
      the bar cells and brackets hold no digits. */
  lemma FrameRoundTrip(p: nat)
    requires p <= 102
    ensures PercentOf(Frame(p)) == Some(p)
  {
    var num := NatToString(p);
    var pre := "\r[" + Bar(p) + "] ";
    var t := Frame(p);
    assert t == pre + num + "%";
    var i, j := |pre|, |pre| + |num|;
    assert forall k :: 0 <= k < i ==> t[k] == pre[k] && !IsDigit(pre[k]);
    assert t[i..j] == num;
    assert DigitsThenPercent(t, i, j);
    var m := FindMatch(t);
    MatchStartsWithDigit(t, m.value.0, m.value.1);
    assert m.value.1 == j by {
      MatchEndsAtRunEnd(t, i, i, j);
      MatchEndsAtRunEnd(t, i, i, m.value.1);
      assert RunEnd(t, i) == j;
    }
    DecimalOfNatToString(p);
  }

  lemma Examples()
    ensures PercentOf("  12% 3 files") == Some(12)
    ensures PercentOf("Everything is Ok") == None
  {
    var t := "  12% 3 files";
    assert DigitsThenPercent(t, 2, 4) && t[2..4] == "12";
    var m := FindMatch(t);
    MatchStartsWithDigit(t, m.value.0, m.value.1);
    assert RunEnd(t, 2) == 4;
    MatchEndsAtRunEnd(t, 2, 2, m.value.1);
    assert DecimalValue("12") == 12 by { assert "12"[..1] == "1"; }
    var u := "Everything is Ok";
    forall a, b | DigitsThenPercent(u, a, b) ensures IsDigit(u[a]) { MatchStartsWithDigit(u, a, b); }
  }
}
