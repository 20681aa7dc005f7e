/** The per-bucket write gate: a bucket with no recorded status is healthy. */
module RepairManager {
  import opened Wrappers

  datatype Status = Healthy | Repairing | Degraded

  class Manager {
    var statuses: map<string, Status>
    var reasons: map<string, string>

    constructor ()
      ensures forall b :: StatusOf(b) == Healthy
    {
      statuses, reasons := map[], map[];
    }

    function StatusOf(bucket: string): Status
      reads this
    {
      if bucket in statuses then statuses[bucket] else Healthy
    }

    /** Writes are let through for healthy buckets only. */
    method CheckWrite(bucket: string) returns (refusal: Option<string>)
      ensures refusal.None? <==> StatusOf(bucket) == Healthy
    {
      var status := StatusOf(bucket);
      if status == Healthy { return None; }
      var reason := if bucket in reasons then reasons[bucket] else "";
      return Some(if reason == "" then (if status == Repairing then "repairing" else "degraded") else reason);
    }

    /** Claims the repair; false when another caller holds the claim already. */
    method MarkRepairing(bucket: string, reason: string) returns (claimed: bool)
      modifies this
      ensures claimed <==> old(StatusOf(bucket)) != Repairing
      ensures StatusOf(bucket) == Repairing && statuses == old(statuses)[bucket := Repairing]
      ensures reasons == if claimed then old(reasons)[bucket := reason] else old(reasons)
    {
      if StatusOf(bucket) == Repairing { return false; }
      statuses := statuses[bucket := Repairing];
      reasons := reasons[bucket := reason];
      return true;
    }

    method MarkDegraded(bucket: string, reason: string)
      modifies this
      ensures StatusOf(bucket) == Degraded && statuses == old(statuses)[bucket := Degraded]
      ensures reasons == old(reasons)[bucket := reason]
    {
      statuses := statuses[bucket := Degraded];
      reasons := reasons[bucket := reason];
    }

    method MarkHealthy(bucket: string)
      modifies this
      ensures StatusOf(bucket) == Healthy && statuses == old(statuses) - {bucket}
      ensures reasons == old(reasons) - {bucket}
    {
      statuses := statuses - {bucket};
      reasons := reasons - {bucket};
    }
  }
}
