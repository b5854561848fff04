// Values shared by the modules of the model.

module Types {

  datatype Option<+T> = None | Some(value: T)

  datatype Result<+T, +E> = Ok(value: T) | Err(error: E)

  /**
   * A content identifier. `rank` is its position in the text order the
   * database sorts ids by: the ids of any finite history can be numbered in
   * that order, and nothing else about a CID matters here.
   */
  datatype Cid = Cid(rank: int)

  /**
   * The compact record the firehose emits, which is also what the stores keep
   * once delegations and invocations are identified with their links. Times
   * are nanoseconds.
   */
  datatype Record = Record(revoke: Cid, path: seq<Cid>, cause: Cid, recordedAt: int)

  /** A revocation handed to a store: its cause and its root-first path. */
  datatype Revocation = Revocation(cause: Cid, path: seq<Cid>)

  predicate HasPath(r: Revocation) {
    r.path != []
  }

  predicate HasPaths(batch: seq<Revocation>) {
    forall i :: 0 <= i < |batch| ==> HasPath(batch[i])
  }

  /** The delegation a revocation revokes: the last of its path. */
  function Revoked(r: Revocation): Cid
    requires HasPath(r)
  {
    r.path[|r.path| - 1]
  }

  /** No element occurs twice. */
  ghost predicate Distinct<T>(s: seq<T>) {
    forall i, j :: 0 <= i < j < |s| ==> s[i] != s[j]
  }

  /** No cause occurs twice. */
  ghost predicate DistinctCauses(rs: seq<Record>) {
    forall i, j :: 0 <= i < j < |rs| ==> rs[i].cause != rs[j].cause
  }
}
