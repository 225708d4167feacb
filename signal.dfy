/**
 * The EMA crossover detector of the alert engine (`detect_cross`).
 *
 * The fast (5-span) and slow (12-span) exponential moving averages are taken
 * as given, one value per bar; the detector classifies every bar as above (+1),
 * tied (0) or below (-1), differences the classification, and reports a cross
 * only when the difference at the last bar is +2 (golden) or -2 (dead).
 */
module Signal {
  import opened Wrappers

  /** The two moving-average columns of one downloaded frame, bar by bar. */
  datatype Columns = Columns(fast: seq<real>, slow: seq<real>)

  /** Both columns come from the same frame, so they have one value per bar. */
  type Bars = c: Columns | |c.fast| == |c.slow| witness Columns([], [])

  function BarCount(b: Bars): nat {
    |b.fast|
  }

  datatype Kind = Golden | Dead
  datatype Strength = Strong | Weak
  datatype Cross = Cross(kind: Kind, strength: Strength)

  /** The value written into the "Signal" column for one bar. */
  function BarState(fast: real, slow: real): (s: int)
    ensures s == 1 <==> fast > slow
    ensures s == -1 <==> fast < slow
    ensures s == 0 <==> fast == slow
  {
    if fast > slow then 1 else if fast < slow then -1 else 0
  }

  function Abs(x: real): real {
    if x < 0.0 then -x else x
  }

  /** The gap threshold above which a cross is called strong. */
  const StrongGap: real := 1.0

  /**
   * What `detect_cross` returns for a non-empty frame: the "Cross" column is
   * the first difference of the "Signal" column (undefined, NaN, at the first
   * bar), and only its last entry is looked at.
   */
  function LastCross(b: Bars): (r: Option<Cross>)
    requires BarCount(b) >= 1
    ensures var n := BarCount(b);
      (r.Some? && r.value.kind == Golden) <==>
        n >= 2 && b.fast[n - 2] < b.slow[n - 2] && b.fast[n - 1] > b.slow[n - 1]
    ensures var n := BarCount(b);
      (r.Some? && r.value.kind == Dead) <==>
        n >= 2 && b.fast[n - 2] > b.slow[n - 2] && b.fast[n - 1] < b.slow[n - 1]
    ensures var n := BarCount(b);
      r.Some? ==> (r.value.strength == Strong <==>
        (b.fast[n - 1] - b.slow[n - 1] > 1.0 || b.slow[n - 1] - b.fast[n - 1] > 1.0))
  {
    var n := BarCount(b);
    var diff := Abs(b.fast[n - 1] - b.slow[n - 1]);
    var level := if diff > StrongGap then Strong else Weak;
    var last := if n == 1 then None
                else Some(BarState(b.fast[n - 1], b.slow[n - 1]) - BarState(b.fast[n - 2], b.slow[n - 2]));
    if last == Some(2) then Some(Cross(Golden, level))
    else if last == Some(-2) then Some(Cross(Dead, level))
    else None
  }

  /** The text `detect_cross` returns for a cross. */
  function CrossText(c: Cross): (t: string)
    ensures |t| >= 3 && t[|t| - 1] == '）'
    ensures t[0] == (if c.kind == Golden then 'ゴ' else 'デ')
    ensures t[|t| - 2] == (if c.strength == Strong then '強' else '弱')
  {
    var level := if c.strength == Strong then "強" else "弱";
    match c.kind
    case Golden => "ゴールデンクロス（" + level + "）"
    case Dead => "デッドクロス（" + level + "）"
  }

  /** The text names the cross: different crosses never share a text. */
  lemma CrossTextInjective(a: Cross, b: Cross)
    requires CrossText(a) == CrossText(b)
    ensures a == b
  {
    var ta, tb := CrossText(a), CrossText(b);
    assert ta[0] == tb[0] && ta[|ta| - 2] == tb[|tb| - 2];
  }

  /**
   * `detect_cross` as the frame operations run it: fill the "Signal" column
   * bar by bar, fill the "Cross" column with its first difference (None for
   * the NaN at the first bar), then classify the last entry.
   */
  method DetectCross(b: Bars) returns (r: Option<Cross>)
    requires BarCount(b) >= 1
    ensures r == LastCross(b)
  {
    var n := |b.fast|;
    var signal := new int[n];
    var i := 0;
    while i < n
      invariant 0 <= i <= n
      invariant forall k :: 0 <= k < i ==> signal[k] == BarState(b.fast[k], b.slow[k])
    {
      signal[i] := 0;
      if b.fast[i] > b.slow[i] {
        signal[i] := 1;
      }
      if b.fast[i] < b.slow[i] {
        signal[i] := -1;
      }
      i := i + 1;
    }
    var cross := new Option<int>[n];
    cross[0] := None;
    i := 1;
    while i < n
      modifies cross
      invariant 1 <= i <= n
      invariant cross[0] == None
      invariant forall k :: 1 <= k < i ==> cross[k] == Some(signal[k] - signal[k - 1])
    {
      cross[i] := Some(signal[i] - signal[i - 1]);
      i := i + 1;
    }
    assert signal[n - 1] == BarState(b.fast[n - 1], b.slow[n - 1]);
    assert n >= 2 ==> signal[n - 2] == BarState(b.fast[n - 2], b.slow[n - 2]);
    var diff := Abs(b.fast[n - 1] - b.slow[n - 1]);
    var level := if diff > StrongGap then Strong else Weak;
    if cross[n - 1] == Some(2) {
      r := Some(Cross(Golden, level));
    } else if cross[n - 1] == Some(-2) {
      r := Some(Cross(Dead, level));
    } else {
      r := None;
    }
  }

  /** A one-bar frame never signals: the only "Cross" entry is NaN. */
  lemma OneBarNoSignal(b: Bars)
    requires BarCount(b) == 1
    ensures LastCross(b) == None
  {
  }

  /** A last transition into or out of a tie is not a cross. */
  lemma TieNoSignal(b: Bars)
    requires BarCount(b) >= 2
    requires b.fast[BarCount(b) - 1] == b.slow[BarCount(b) - 1]
          || b.fast[BarCount(b) - 2] == b.slow[BarCount(b) - 2]
    ensures LastCross(b) == None
  {
  }

  /** Only the last two bars matter: any earlier history, crosses included, is ignored. */
  lemma OnlyLastTwoBarsMatter(b1: Bars, b2: Bars)
    requires BarCount(b1) >= 2 && BarCount(b2) >= 2
    requires b1.fast[BarCount(b1) - 2..] == b2.fast[BarCount(b2) - 2..]
    requires b1.slow[BarCount(b1) - 2..] == b2.slow[BarCount(b2) - 2..]
    ensures LastCross(b1) == LastCross(b2)
  {
    var n1, n2 := BarCount(b1), BarCount(b2);
    assert b1.fast[n1 - 2] == b1.fast[n1 - 2..][0] == b2.fast[n2 - 2];
    assert b1.fast[n1 - 1] == b1.fast[n1 - 2..][1] == b2.fast[n2 - 1];
    assert b1.slow[n1 - 2] == b1.slow[n1 - 2..][0] == b2.slow[n2 - 2];
    assert b1.slow[n1 - 1] == b1.slow[n1 - 2..][1] == b2.slow[n2 - 1];
  }

  /** A gap of exactly 1.0 is weak: the threshold is strict. */
  lemma GapOfOneIsWeak(b: Bars)
    requires BarCount(b) >= 1 && LastCross(b).Some?
    requires Abs(b.fast[BarCount(b) - 1] - b.slow[BarCount(b) - 1]) == 1.0
    ensures LastCross(b).value.strength == Weak
  {
  }
}
