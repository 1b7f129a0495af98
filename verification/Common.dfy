/** Small definitions that several parts of the model share. */
module Common {

  datatype Option<+T> = None | Some(value: T)

  const MAX_U32 := 0xFFFF_FFFF

  function Min(a: nat, b: nat): nat {
    if a <= b then a else b
  }

  /** Rounds half away from zero. */
  function Round(x: real): int {
    if x >= 0.0 then (x + 0.5).Floor else -(0.5 - x).Floor
  }

  /** The nearest whole number; of two equally near ones the one away from zero. */
  lemma RoundIsNearest(x: real)
    ensures x >= 0.0 ==> Round(x) as real - 0.5 <= x < Round(x) as real + 0.5
    ensures x < 0.0 ==> Round(x) as real - 0.5 < x <= Round(x) as real + 0.5
  {
  }

  ghost predicate Unique<T(!new)>(s: seq<T>) {
    forall i, j :: 0 <= i < j < |s| ==> s[i] != s[j]
  }
}
