/** Per-axis movement scaling with a carried remainder.

  The firmware divides toward zero, so the remainder has the sign of the scaled
  value; it is carried to the next report of the same axis.
 */
module MouseScaling {

  /** Width of an axis: i16 for x and y, i8 for wheel and pan. */
  datatype Axis = Axis(lo: int, hi: int)

  const I16: Axis := Axis(-32768, 32767)
  const I8: Axis := Axis(-128, 127)

  predicate Fits(a: Axis, v: int) {
    a.lo <= v <= a.hi
  }

  function Clamp(a: Axis, v: int): int {
    if v < a.lo then a.lo else if v > a.hi then a.hi else v
  }

  function TruncDiv(n: int): int {
    if n >= 0 then n / 100 else -((-n) / 100)
  }

  function TruncRem(n: int): int {
    n - 100 * TruncDiv(n)
  }

  method ScaleWithRemainder(a: Axis, value: int, percent: nat, remainder: int) returns (out: int, rest: int)
    ensures out == Clamp(a, TruncDiv(value * percent + remainder))
    ensures rest == TruncRem(value * percent + remainder)
    ensures -99 <= rest <= 99
  {
    var scaled := value * percent + remainder;
    var output := if scaled >= 0 then scaled / 100 else -((-scaled) / 100);
    rest := scaled - 100 * output;
    out := if output < a.lo then a.lo else if output > a.hi then a.hi else output;
  }

  /** The clamp acts exactly when the scaled value leaves this interval. */
  lemma ClampActsIff(a: Axis, scaled: int)
    requires a.lo < 0 < a.hi
    ensures Fits(a, TruncDiv(scaled)) <==> 100 * a.lo - 99 <= scaled <= 100 * a.hi + 99
  {
  }

  lemma Shrinks(value: int, percent: nat)
    requires percent <= 100
    ensures value >= 0 ==> 0 <= value * percent <= 100 * value
    ensures value <= 0 ==> 100 * value <= value * percent <= 0
  {
    if value >= 0 {
      assert value * percent <= value * 100;
    } else {
      assert (-value) * percent <= (-value) * 100;
      assert (-value) * percent == -(value * percent);
    }
  }

  /** Up to 100 percent nothing is ever clamped. */
  lemma NoClampUpTo100(a: Axis, value: int, percent: nat, remainder: int)
    requires percent <= 100 && a.lo < 0 < a.hi && Fits(a, value) && -99 <= remainder <= 99
    ensures Fits(a, TruncDiv(value * percent + remainder))
  {
    Shrinks(value, percent);
    ClampActsIff(a, value * percent + remainder);
  }

  // ---------------------------------------------------------------- runs

  function Sum(s: seq<int>): int {
    if s == [] then 0 else Sum(s[..|s| - 1]) + s[|s| - 1]
  }

  /** The remainder carried after a run of values. */
  function Carried(a: Axis, values: seq<int>, percent: nat): (r: int)
    ensures -99 <= r <= 99
  {
    if values == [] then 0
    else TruncRem(values[|values| - 1] * percent + Carried(a, values[..|values| - 1], percent))
  }

  function Quotient(a: Axis, values: seq<int>, percent: nat, i: nat): int
    requires i < |values|
  {
    TruncDiv(values[i] * percent + Carried(a, values[..i], percent))
  }

  /** The outputs of a run, starting from no remainder. */
  function Outputs(a: Axis, values: seq<int>, percent: nat): (r: seq<int>)
    ensures |r| == |values|
    ensures forall i :: 0 <= i < |r| ==> r[i] == Clamp(a, Quotient(a, values, percent, i))
  {
    seq(|values|, i requires 0 <= i < |values| => Clamp(a, Quotient(a, values, percent, i)))
  }

  /** What the clamp cut off in a run. */
  function Lost(a: Axis, values: seq<int>, percent: nat): (r: seq<int>)
    ensures |r| == |values|
    ensures forall i :: 0 <= i < |r| ==> r[i] == Quotient(a, values, percent, i) - Clamp(a, Quotient(a, values, percent, i))
  {
    seq(|values|, i requires 0 <= i < |values| =>
      Quotient(a, values, percent, i) - Clamp(a, Quotient(a, values, percent, i)))
  }

  method ScaleRun(a: Axis, values: seq<int>, percent: nat) returns (out: seq<int>, remainder: int)
    ensures out == Outputs(a, values, percent) && remainder == Carried(a, values, percent)
  {
    out, remainder := [], 0;
    var i := 0;
    while i < |values|
      invariant 0 <= i <= |values| && |out| == i
      invariant remainder == Carried(a, values[..i], percent)
      invariant forall j :: 0 <= j < i ==> out[j] == Clamp(a, Quotient(a, values, percent, j))
    {
      var o, r := ScaleWithRemainder(a, values[i], percent, remainder);
      assert values[..i + 1][..i] == values[..i];
      out, remainder := out + [o], r;
      i := i + 1;
    }
    assert values[..i] == values;
  }

  lemma PrefixOutputs(a: Axis, values: seq<int>, percent: nat, n: nat)
    requires n <= |values|
    ensures Outputs(a, values[..n], percent) == Outputs(a, values, percent)[..n]
    ensures Lost(a, values[..n], percent) == Lost(a, values, percent)[..n]
  {
    forall i | 0 <= i < n
      ensures Quotient(a, values[..n], percent, i) == Quotient(a, values, percent, i)
    {
      assert values[..n][..i] == values[..i];
    }
  }

  lemma Distribute(percent: int, total: int, v: int)
    ensures percent * (total + v) == percent * total + v * percent
  {
  }

  lemma Account(out: int, lost: int, carried: int, scaledTotal: int, q: int, o: int, l: int, rest: int, scaled: int)
    requires 100 * (out + lost) + carried == scaledTotal
    requires o + l == q && 100 * q + rest == scaled + carried
    ensures 100 * ((out + o) + (lost + l)) + rest == scaledTotal + scaled
  {
  }

  lemma LastStep(a: Axis, values: seq<int>, percent: nat)
    requires values != []
    ensures var n := |values| - 1;
      var q := Quotient(a, values, percent, n);
      && Outputs(a, values, percent)[n] + Lost(a, values, percent)[n] == q
      && 100 * q + Carried(a, values, percent) == values[n] * percent + Carried(a, values[..n], percent)
  {
  }

  lemma SumStep(s: seq<int>, t: seq<int>)
    requires s != [] && t == s[..|s| - 1]
    ensures Sum(s) == Sum(t) + s[|s| - 1]
  {
  }

  /** What the last value adds to the totals. */
  lemma SumsStep(a: Axis, values: seq<int>, percent: nat, out: seq<int>, lost: seq<int>)
    requires values != [] && out == Outputs(a, values, percent) && lost == Lost(a, values, percent)
    ensures var n := |values| - 1;
      && Sum(out) == Sum(Outputs(a, values[..n], percent)) + out[n]
      && Sum(lost) == Sum(Lost(a, values[..n], percent)) + lost[n]
  {
    var n := |values| - 1;
    PrefixOutputs(a, values, percent, n);
    SumStep(out, out[..n]);
    SumStep(lost, lost[..n]);
  }

  /** Nothing disappears except what the clamp cuts off. */
  lemma {:induction false} ScalingConserves(a: Axis, values: seq<int>, percent: nat)
    ensures 100 * (Sum(Outputs(a, values, percent)) + Sum(Lost(a, values, percent))) + Carried(a, values, percent)
         == percent * Sum(values)
    decreases |values|
  {
    if values != [] {
      var n := |values| - 1;
      var before := values[..n];
      ScalingConserves(a, before, percent);
      SumsStep(a, values, percent, Outputs(a, values, percent), Lost(a, values, percent));
      SumStep(values, before);
      Distribute(percent, Sum(before), values[n]);
      LastStep(a, values, percent);
      Account(Sum(Outputs(a, before, percent)), Sum(Lost(a, before, percent)), Carried(a, before, percent),
              percent * Sum(before), Quotient(a, values, percent, n), Outputs(a, values, percent)[n],
              Lost(a, values, percent)[n], Carried(a, values, percent), values[n] * percent);
    }
  }

  lemma {:induction false} SumOfZeros(s: seq<int>)
    requires forall i :: 0 <= i < |s| ==> s[i] == 0
    ensures Sum(s) == 0
  {
    if s != [] {
      SumOfZeros(s[..|s| - 1]);
    }
  }

  /** Up to 100 percent the scaled total never strays a full count from the
      exact one, however long the run. */
  lemma ScalingIsAccurate(a: Axis, values: seq<int>, percent: nat)
    requires percent <= 100 && a.lo < 0 < a.hi && forall i :: 0 <= i < |values| ==> Fits(a, values[i])
    ensures -99 <= 100 * Sum(Outputs(a, values, percent)) - percent * Sum(values) <= 99
  {
    forall i | 0 <= i < |values|
      ensures Lost(a, values, percent)[i] == 0
    {
      NoClampUpTo100(a, values[i], percent, Carried(a, values[..i], percent));
    }
    SumOfZeros(Lost(a, values, percent));
    ScalingConserves(a, values, percent);
  }
}
