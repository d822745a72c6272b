/**
 * The percent figures of the dashboard and net-worth views. Both divide a change
 * by a base and show the text `'0'` when the base is not positive; the rounding
 * of `toFixed` is not modelled, so the ratio is kept as an exact real.
 */
module Figures {

  datatype PercentText = ZeroText | Ratio(percent: real)

  /** `base > 0 ? ((delta / base) * 100).toFixed(…) : '0'`. */
  function PercentOf(delta: int, base: int): (p: PercentText)
    ensures p.ZeroText? <==> base <= 0
    ensures p.Ratio? ==> p.percent * (base as real) == (delta as real) * 100.0
  {
    if base > 0 then Ratio((delta as real) / (base as real) * 100.0) else ZeroText
  }

  /** A shown ratio has the sign of the change. */
  lemma PercentSign(delta: int, base: int)
    requires base > 0
    ensures PercentOf(delta, base).percent > 0.0 <==> delta > 0
    ensures PercentOf(delta, base).percent == 0.0 <==> delta == 0
  {
    var p := PercentOf(delta, base).percent;
    var b := base as real;
    assert p * b == (delta as real) * 100.0;
    if p > 0.0 {
      assert p * b > 0.0;
    } else if p < 0.0 {
      assert p * b < 0.0;
    }
  }
}
