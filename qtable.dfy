/**
 * What both engines share about their Q-tables: the `${state}_${action}` key
 * format, the "missing key counts as 0" lookup, and the two scans over the
 * phases (a running maximum and the first index holding it).
 */
module QTable {

  type QValues = map<string, real>

  function DigitChar(d: nat): char
    requires d < 10
  {
    "0123456789"[d]
  }

  /** How a template literal prints a non-negative integer. */
  function Digits(n: nat): (s: string)
    ensures |s| >= 1
    ensures n < 10 ==> s == [DigitChar(n)]
  {
    if n < 10 then [DigitChar(n)] else Digits(n / 10) + [DigitChar(n % 10)]
  }

  /** The key `${state}_${action}`. */
  function ActionKey(state: string, action: nat): string
  {
    state + "_" + Digits(action)
  }

  /** A one-digit action makes the key split back into its state and action. */
  lemma ActionKeyInjective(s1: string, a1: nat, s2: string, a2: nat)
    requires a1 < 10 && a2 < 10
    ensures ActionKey(s1, a1) == ActionKey(s2, a2) <==> s1 == s2 && a1 == a2
  {
    if ActionKey(s1, a1) == ActionKey(s2, a2) {
      var k := ActionKey(s1, a1);
      assert |s1| == |s2|;
      assert s1 == k[..|s1|];
      assert s2 == k[..|s2|];
      assert DigitChar(a1) == k[|k| - 1] == DigitChar(a2);
    }
  }

  /** `q[k] || 0`: a missing key reads as 0. */
  function ValueOr0(q: QValues, k: string): (v: real)
    ensures k in q ==> v == q[k]
    ensures k !in q ==> v == 0.0
  {
    if k in q then q[k] else 0.0
  }

  /** The values `q[${state}_${a}] || 0` for the actions `0 .. n-1`. */
  function ActionValues(q: QValues, state: string, n: nat): (v: seq<real>)
    ensures |v| == n
    ensures forall a :: 0 <= a < n ==> v[a] == ValueOr0(q, ActionKey(state, a))
  {
    if n == 0 then [] else ActionValues(q, state, n - 1) + [ValueOr0(q, ActionKey(state, n - 1))]
  }

  /** `maxNextQ = Math.max(maxNextQ, value)` over the whole sequence, seeded by its first element. */
  function MaxOf(v: seq<real>): (m: real)
    requires |v| > 0
    ensures forall i :: 0 <= i < |v| ==> v[i] <= m
    ensures exists i :: 0 <= i < |v| && v[i] == m
  {
    if |v| == 1 then v[0]
    else
      var m' := MaxOf(v[..|v| - 1]);
      assert forall i :: 0 <= i < |v| - 1 ==> v[..|v| - 1][i] == v[i];
      if v[|v| - 1] > m' then v[|v| - 1] else m'
  }

  /** `i` holds a maximum of `v` and every earlier index holds strictly less. */
  ghost predicate IsFirstMax(v: seq<real>, i: nat)
  {
    && i < |v|
    && (forall j :: 0 <= j < |v| ==> v[j] <= v[i])
    && (forall j :: 0 <= j < i ==> v[j] < v[i])
  }

  /**
   * The index a left-to-right scan keeps when it replaces its best only on a
   * strictly greater value.
   */
  function FirstArgMax(v: seq<real>): (i: nat)
    requires |v| > 0
    ensures IsFirstMax(v, i)
  {
    if |v| == 1 then 0
    else
      var j := FirstArgMax(v[..|v| - 1]);
      assert forall k :: 0 <= k < |v| - 1 ==> v[..|v| - 1][k] == v[k];
      if v[|v| - 1] > v[j] then |v| - 1 else j
  }

  /** There is only one first maximum, so the scan's answer is determined by the values. */
  lemma FirstMaxUnique(v: seq<real>, i: nat, j: nat)
    requires IsFirstMax(v, i) && IsFirstMax(v, j)
    ensures i == j
  {
    assert v[i] <= v[j] <= v[i];
  }

  /** One tabular Q-learning step: `old + rate * (target - old)`. */
  function Blend(current: real, target: real, rate: real): real
  {
    current + rate * (target - current)
  }

  /** The step shrinks the distance to the target by the factor `1 - rate`. */
  lemma BlendContracts(current: real, target: real, rate: real)
    ensures Blend(current, target, rate) - target == (1.0 - rate) * (current - target)
  {
  }

  /** With a rate in [0,1] the new value lies between the current value and the target. */
  lemma BlendBetween(current: real, target: real, rate: real)
    requires 0.0 <= rate <= 1.0
    ensures current <= target ==> current <= Blend(current, target, rate) <= target
    ensures target <= current ==> target <= Blend(current, target, rate) <= current
  {
    var d := target - current;
    assert Blend(current, target, rate) == current + rate * d;
    assert rate * d + (1.0 - rate) * d == d;
    if current <= target {
      NonNegativeProduct(rate, d);
      NonNegativeProduct(1.0 - rate, d);
    } else {
      NonNegativeProduct(rate, -d);
      NonNegativeProduct(1.0 - rate, -d);
    }
  }

  lemma NonNegativeProduct(a: real, b: real)
    requires 0.0 <= a && 0.0 <= b
    ensures 0.0 <= a * b
  {
  }
}
