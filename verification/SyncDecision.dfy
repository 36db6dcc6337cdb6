/** The three-way comparison of a slot: BASE, this device, and Steam. */
module SyncDecision {
  import opened Bytes

  datatype Decision = Unchanged | UploadLocal | DownloadRemote | Converged | Conflict | FirstSyncChoiceRequired

  function Decide(base: Option<seq<byte>>, local: seq<byte>, remote: seq<byte>): Decision
  {
    match base
    case None => if local == remote then Converged else FirstSyncChoiceRequired
    case Some(base) =>
      match (local == base, remote == base, local == remote)
      case (true, true, _) => Unchanged
      case (false, true, _) => UploadLocal
      case (true, false, _) => DownloadRemote
      case (false, false, true) => Converged
      case (false, false, false) => Conflict
  }

  /** Sides that agree never need a transfer; sides that differ are never taken for equal. */
  lemma AgreementIsRecognized(base: Option<seq<byte>>, local: seq<byte>, remote: seq<byte>)
    ensures local == remote <==> Decide(base, local, remote) in {Unchanged, Converged}
    ensures Decide(base, local, remote) == Unchanged <==> base == Some(local) && local == remote
  {
  }

  /** A transfer overwrites a side only while that side still holds BASE. */
  lemma TransfersOverwriteBaseOnly(base: Option<seq<byte>>, local: seq<byte>, remote: seq<byte>)
    ensures Decide(base, local, remote) == UploadLocal <==> base == Some(remote) && local != remote
    ensures Decide(base, local, remote) == DownloadRemote <==> base == Some(local) && local != remote
    ensures Decide(base, local, remote) in {Conflict, FirstSyncChoiceRequired}
      <==> local != remote && base != Some(local) && base != Some(remote)
  {
  }
}
