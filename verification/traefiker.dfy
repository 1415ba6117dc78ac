/** The Traefiker status probe: for each configured section, count the
    narratives the status endpoint reports, in total and per known state, and
    print the counter. Fetching the endpoint and reading the configuration are
    outside; each section's narrative list is an input. */
module Traefiker {
  import opened Wrappers
  import opened Text

  /** One entry of `narrative_services`; `state` is None when the entry has no
      `state` key. */
  datatype Narrative = Narrative(state: Option<string>)

  type Counts = map<string, nat>

  /** The states the probe expects from the endpoint. */
  const STATES: seq<string> := ["active", "queued"]

  /** The counter's keys: `total` and the expected states. */
  const KEYS: set<string> := {"total", "active", "queued"}

  /** How many narratives carry exactly state `s`. */
  function Occurrences(ns: seq<Narrative>, s: string): nat {
    if |ns| == 0 then 0
    else Occurrences(ns[..|ns| - 1], s) + (if ns[|ns| - 1].state == Some(s) then 1 else 0)
  }

  /** Counting one narrative: `total` always goes up; then the counter entry
      named by the state goes up if there is one, which for the state `total`
      is `total` again. A missing or unexpected state changes nothing else. */
  function CountOne(c: Counts, n: Narrative): (c': Counts)
    requires c.Keys == KEYS
    ensures c'.Keys == KEYS
    ensures c'["total"] == c["total"] + 1 + (if n.state == Some("total") then 1 else 0)
    ensures c'["active"] == c["active"] + (if n.state == Some("active") then 1 else 0)
    ensures c'["queued"] == c["queued"] + (if n.state == Some("queued") then 1 else 0)
  {
    var bumped := c["total" := c["total"] + 1];
    match n.state
    case Some(s) => if s in bumped then bumped[s := bumped[s] + 1] else bumped
    case None => bumped
  }

  /** The counter after a whole list: the initial all-zero counter folded with
      CountOne. Its keys never change, `total` counts every narrative plus the
      ones in state `total` once more, and each expected state counts its own. */
  function Tally(ns: seq<Narrative>): (c: Counts)
    ensures c.Keys == KEYS
    ensures c["total"] == |ns| + Occurrences(ns, "total")
    ensures c["active"] == Occurrences(ns, "active")
    ensures c["queued"] == Occurrences(ns, "queued")
  {
    if |ns| == 0 then map["total" := 0, "active" := 0, "queued" := 0]
    else CountOne(Tally(ns[..|ns| - 1]), ns[|ns| - 1])
  }

  /** The counter before any narrative: `total`, then each expected state, at 0. */
  method NewCounter() returns (counts: Counts)
    ensures counts.Keys == KEYS
    ensures forall key :: key in counts ==> counts[key] == 0
  {
    counts := map["total" := 0];
    for k := 0 to |STATES|
      invariant counts.Keys == {"total"} + set j | 0 <= j < k :: STATES[j]
      invariant forall key :: key in counts ==> counts[key] == 0
    {
      counts := counts[STATES[k] := 0];
    }
    assert (set j | 0 <= j < |STATES| :: STATES[j]) == {"active", "queued"} by {
      assert STATES[0] == "active" && STATES[1] == "queued";
    }
  }

  /** The probe's counting loop for one section. */
  method ProcessSection(narratives: seq<Narrative>) returns (counts: Counts)
    ensures counts.Keys == KEYS
    ensures counts["total"] == |narratives| + Occurrences(narratives, "total")
    ensures counts["active"] == Occurrences(narratives, "active")
    ensures counts["queued"] == Occurrences(narratives, "queued")
  {
    counts := NewCounter();
    assert counts == Tally([]);
    for i := 0 to |narratives|
      invariant counts == Tally(narratives[..i])
    {
      assert narratives[..i + 1][..i] == narratives[..i];
      ghost var before := counts;
      assert Tally(narratives[..i + 1]) == CountOne(before, narratives[i]);
      counts := counts["total" := counts["total"] + 1];
      match narratives[i].state {
        case Some(s) =>
          if s in counts {
            counts := counts[s := counts[s] + 1];
          }
        case None =>
      }
      assert counts == CountOne(before, narratives[i]);
    }
    assert narratives[..|narratives|] == narratives;
  }

  /** Every narrative counted as active or queued was also counted in `total`. */
  lemma {:induction false} StatesWithinTotal(ns: seq<Narrative>)
    ensures Occurrences(ns, "active") + Occurrences(ns, "queued") <= |ns|
    ensures Tally(ns)["active"] + Tally(ns)["queued"] <= Tally(ns)["total"]
  {
    if |ns| > 0 {
      StatesWithinTotal(ns[..|ns| - 1]);
    }
  }

  /** The counter as Python prints a dict: keys in insertion order. */
  function CountsRepr(c: Counts): string
    requires c.Keys == KEYS
  {
    "{'total': " + NatToString(c["total"]) + ", 'active': " + NatToString(c["active"])
      + ", 'queued': " + NatToString(c["queued"]) + "}"
  }

  /** One printed counter per section, in the order the sections are given. */
  method RunTraefiker(sections: seq<seq<Narrative>>) returns (lines: seq<string>)
    ensures |lines| == |sections|
    ensures forall k :: 0 <= k < |sections| ==> lines[k] == CountsRepr(Tally(sections[k]))
  {
    lines := [];
    for k := 0 to |sections|
      invariant |lines| == k
      invariant forall j :: 0 <= j < k ==> lines[j] == CountsRepr(Tally(sections[j]))
    {
      var counts := ProcessSection(sections[k]);
      lines := lines + [CountsRepr(counts)];
    }
  }
}
