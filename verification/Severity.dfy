/** The one severity order the deduper, the envelope and the client share. */
module Severity {

  const SEVERITIES := ["notice", "warning", "critical", "emergency"]

  /** severityRank, rank and SEV_RANK: anything else ranks as a notice. */
  function Rank(severity: string): nat {
    match severity
    case "warning" => 1
    case "critical" => 2
    case "emergency" => 3
    case _ => 0
  }

  /** The four severities are listed in rising order, from notice on, and nothing else outranks a notice. */
  lemma RanksAscend(severity: string)
    ensures forall i, j | 0 <= i < j < |SEVERITIES| :: Rank(SEVERITIES[i]) < Rank(SEVERITIES[j])
    ensures Rank(severity) > Rank("notice") <==> severity in SEVERITIES[1..]
    ensures severity !in SEVERITIES ==> Rank(severity) == Rank("notice")
  {
    assert SEVERITIES[1..] == ["warning", "critical", "emergency"];
  }
}
