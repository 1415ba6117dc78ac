/** The severity scale shared by all three probes: the ordinal codes a
    monitoring collector reads at the head of each line and as exit status. */
module Severity {

  /** 0 = OK, 1 = WARNING, 2 = CRITICAL, 3 = UNKNOWN; higher sorts worse. */
  type Status = s: int | 0 <= s <= 3

  const OK: Status := 0
  const WARNING: Status := 1
  const CRITICAL: Status := 2
  const UNKNOWN: Status := 3

  const STATUS_STRINGS: seq<string> := ["OK", "WARNING", "CRITICAL", "UNKNOWN"]

  /** The label printed next to a code; the index into STATUS_STRINGS. */
  function Label(s: Status): (l: string)
    ensures l in STATUS_STRINGS
    ensures s == OK <==> l == "OK"
    ensures s == WARNING <==> l == "WARNING"
    ensures s == CRITICAL <==> l == "CRITICAL"
    ensures s == UNKNOWN <==> l == "UNKNOWN"
  {
    STATUS_STRINGS[s]
  }

  /** Combining two severities keeps the worse one. */
  function Max(a: Status, b: Status): (m: Status)
    ensures a <= m && b <= m
    ensures m == a || m == b
  {
    if a >= b then a else b
  }

  /** Rollup of a collection: the worst member, OK for none. */
  function Worst(ss: seq<Status>): (w: Status)
    ensures forall i :: 0 <= i < |ss| ==> ss[i] <= w
    ensures |ss| == 0 ==> w == OK
    ensures |ss| > 0 ==> w in ss
  {
    if |ss| == 0 then OK else Max(Worst(ss[..|ss| - 1]), ss[|ss| - 1])
  }

  /** Rolling up a concatenation is combining the two rollups, so the order
      in which sub-resources are folded does not matter. */
  lemma {:induction false} WorstAppend(a: seq<Status>, b: seq<Status>)
    ensures Worst(a + b) == Max(Worst(a), Worst(b))
    decreases |b|
  {
    if |b| == 0 {
      assert a + b == a;
    } else {
      var b' := b[..|b| - 1];
      assert (a + b)[..|a + b| - 1] == a + b';
      WorstAppend(a, b');
    }
  }
}
