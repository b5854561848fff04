// witnessPath of cmd/swarf/revoke.go: from a bag of delegations, the chain that
// leads from a self-issued root to the delegation to revoke.

module WitnessPath {
  import opened Types
  import opened Delegations

  datatype PathError =
    | RevokedMissing
    | ManyParents(link: Cid)
    | NoParent(link: Cid)
    | Cycle(link: Cid)

  // ------------------------------------------------------- specification

  predicate IsParent(d: Delegation, child: Delegation) {
    d.audience == child.issuer
  }

  /** `p` is the only witness, by position, whose audience issued `child`. */
  ghost predicate OnlyParent(ws: seq<Delegation>, child: Delegation, p: Delegation) {
    exists i :: 0 <= i < |ws| && ws[i] == p && IsParent(p, child)
      && forall j :: 0 <= j < |ws| && IsParent(ws[j], child) ==> j == i
  }

  /** A root-first chain of witnesses to the delegation `revoke`, self-issued at its root and nowhere else. */
  ghost predicate IsChain(ws: seq<Delegation>, revoke: Cid, path: seq<Delegation>) {
    && path != [] && path[|path| - 1].link == revoke
    && (forall i :: 0 <= i < |path| ==> path[i] in ws)
    && Linked(path)
    && SelfIssued(path[0])
    && (forall i :: 0 < i < |path| ==> !SelfIssued(path[i]))
  }

  ghost predicate ParentsUnique(ws: seq<Delegation>, path: seq<Delegation>) {
    forall i :: 0 < i < |path| ==> OnlyParent(ws, path[i], path[i - 1])
  }

  /** What the walk finds: a repeat-free chain along which every parent is the only one. */
  ghost predicate IsWitness(ws: seq<Delegation>, revoke: Cid, path: seq<Delegation>) {
    IsChain(ws, revoke, path) && DistinctLinks(path) && ParentsUnique(ws, path)
  }

  ghost predicate Has(ws: seq<Delegation>, link: Cid) {
    exists i :: 0 <= i < |ws| && ws[i].link == link
  }

  /** The revoker issued the revoked delegation. */
  ghost predicate IsDirect(ws: seq<Delegation>, revoke: Cid, revoker: Did, d: Delegation) {
    d in ws && d.link == revoke && d.issuer == revoker
  }

  // -------------------------------------------------------------- the walk

  /** The walk, child first: only parents, none of them repeated, stopping at the first self-issued one. */
  ghost predicate IsWalk(ws: seq<Delegation>, revoke: Cid, up: seq<Delegation>) {
    && up != [] && up[0].link == revoke
    && (forall i :: 0 <= i < |up| ==> up[i] in ws)
    && DistinctLinks(up)
    && (forall i :: 0 <= i < |up| - 1 ==> !SelfIssued(up[i]) && OnlyParent(ws, up[i], up[i + 1]))
  }

  /** Why a walk cannot go on. */
  ghost predicate Blocked(ws: seq<Delegation>, up: seq<Delegation>, e: PathError)
    requires up != []
  {
    var tail := up[|up| - 1];
    !SelfIssued(tail) &&
    match e
    case RevokedMissing => false
    case NoParent(link) =>
      link == tail.link && forall i :: 0 <= i < |ws| ==> !IsParent(ws[i], tail)
    case ManyParents(link) =>
      link == tail.link && exists i, j :: 0 <= i < j < |ws| && IsParent(ws[i], tail) && IsParent(ws[j], tail)
    case Cycle(link) =>
      && (exists p: Delegation :: p.link == link && OnlyParent(ws, tail, p))
      && (exists i :: 0 <= i < |up| && up[i].link == link)
  }

  function Reverse<T>(s: seq<T>): (r: seq<T>)
    ensures |r| == |s|
    ensures forall i :: 0 <= i < |s| ==> r[i] == s[|s| - 1 - i]
  {
    seq(|s|, i requires 0 <= i < |s| => s[|s| - 1 - i])
  }

  lemma WalkReversed(ws: seq<Delegation>, revoke: Cid, up: seq<Delegation>)
    requires IsWalk(ws, revoke, up) && SelfIssued(up[|up| - 1])
    ensures IsWitness(ws, revoke, Reverse(up))
  {
    var path, n := Reverse(up), |up| - 1;
    forall i | 0 < i < |path|
      ensures !SelfIssued(path[i]) && OnlyParent(ws, path[i], path[i - 1])
      ensures path[i].issuer == path[i - 1].audience
    {
      assert path[i] == up[n - i] && path[i - 1] == up[n - i + 1];
      assert OnlyParent(ws, up[n - i], up[n - i + 1]);
    }
  }

  /** Any chain to the revoked delegation follows a walk from it, as far as both go. */
  lemma {:induction false} ChainFollowsWalk(ws: seq<Delegation>, revoke: Cid, up: seq<Delegation>,
                                            path: seq<Delegation>, k: nat)
    requires LinksName(ws) && IsWalk(ws, revoke, up) && IsChain(ws, revoke, path)
    requires k < |up| && k < |path|
    ensures up[k] == path[|path| - 1 - k]
  {
    if k == 0 {
      var i :| 0 <= i < |ws| && ws[i] == up[0];
      var j :| 0 <= j < |ws| && ws[j] == path[|path| - 1];
    } else {
      ChainFollowsWalk(ws, revoke, up, path, k - 1);
      var n := |path| - 1;
      assert path[n - k] in ws && IsParent(path[n - k], up[k - 1]);
      assert OnlyParent(ws, up[k - 1], up[k - 1 + 1]);
    }
  }

  /** A chain to the revoked delegation is no shorter than a walk from it, and longer when the walk is not at a root. */
  lemma ChainOutlastsWalk(ws: seq<Delegation>, revoke: Cid, up: seq<Delegation>, path: seq<Delegation>)
    requires LinksName(ws) && IsWalk(ws, revoke, up) && IsChain(ws, revoke, path)
    ensures |up| <= |path|
    ensures !SelfIssued(up[|up| - 1]) ==> |up| < |path|
    ensures SelfIssued(up[|up| - 1]) ==> |up| == |path|
  {
    if |path| <= |up| {
      ChainFollowsWalk(ws, revoke, up, path, |path| - 1);
      assert SelfIssued(up[|path| - 1]);
    } else {
      ChainFollowsWalk(ws, revoke, up, path, |up| - 1);
      assert up[|up| - 1] == path[|path| - |up|];
    }
  }

  /** Where there is a witness path, a walk that is not at a root has one parent to go on to, not yet visited. */
  lemma WalkGoesOn(ws: seq<Delegation>, revoke: Cid, up: seq<Delegation>, path: seq<Delegation>)
    returns (parent: Delegation)
    requires LinksName(ws) && IsWalk(ws, revoke, up) && IsWitness(ws, revoke, path) && !SelfIssued(up[|up| - 1])
    ensures OnlyParent(ws, up[|up| - 1], parent)
    ensures forall i :: 0 <= i < |up| ==> up[i].link != parent.link
  {
    ChainOutlastsWalk(ws, revoke, up, path);
    var k, n := |up| - 1, |path| - 1;
    ChainFollowsWalk(ws, revoke, up, path, k);
    parent := path[n - k - 1];
    assert OnlyParent(ws, path[n - k], path[n - k - 1]);
    forall i | 0 <= i < |up|
      ensures up[i].link != parent.link
    {
      ChainFollowsWalk(ws, revoke, up, path, i);
    }
  }

  /** So a blocked walk means there is no witness path. */
  lemma WitnessMeansUnblocked(ws: seq<Delegation>, revoke: Cid, up: seq<Delegation>, e: PathError)
    requires LinksName(ws) && IsWalk(ws, revoke, up)
    ensures (exists path :: IsWitness(ws, revoke, path)) ==> !Blocked(ws, up, e)
  {
    if path :| IsWitness(ws, revoke, path) {
      if !SelfIssued(up[|up| - 1]) {
        var parent := WalkGoesOn(ws, revoke, up, path);
      }
    }
  }

  /**
   * The witness path is the only chain: any linked chain of witnesses to the
   * revoked delegation whose one self-issued member is its root is that path.
   */
  lemma WitnessIsOnlyChain(ws: seq<Delegation>, revoke: Cid, path: seq<Delegation>, other: seq<Delegation>)
    requires LinksName(ws) && IsWitness(ws, revoke, path) && IsChain(ws, revoke, other)
    ensures other == path
  {
    var up := Reverse(path);
    WitnessReversed(ws, revoke, path);
    ChainOutlastsWalk(ws, revoke, up, other);
    forall i | 0 <= i < |path|
      ensures other[i] == path[i]
    {
      ChainFollowsWalk(ws, revoke, up, other, |path| - 1 - i);
    }
  }

  lemma WitnessReversed(ws: seq<Delegation>, revoke: Cid, path: seq<Delegation>)
    requires IsWitness(ws, revoke, path)
    ensures IsWalk(ws, revoke, Reverse(path)) && SelfIssued(Reverse(path)[|path| - 1])
  {
    var up, n := Reverse(path), |path| - 1;
    forall i | 0 <= i < |up| - 1
      ensures !SelfIssued(up[i]) && OnlyParent(ws, up[i], up[i + 1])
    {
      assert OnlyParent(ws, path[n - i], path[n - i - 1]);
    }
  }

  /** A walk ends at a witness that nobody, or more than one witness, was the audience for. */
  lemma {:induction false} BlockedMeans(ws: seq<Delegation>, revoke: Cid, up: seq<Delegation>, e: PathError)
    requires IsWalk(ws, revoke, up) && Blocked(ws, up, e)
    ensures e.NoParent? ==>
      exists d :: d in ws && d.link == e.link && forall w :: w in ws ==> w.audience != d.issuer
    ensures e.ManyParents? ==>
      exists d, i, j :: d in ws && d.link == e.link
        && 0 <= i < j < |ws| && ws[i].audience == d.issuer && ws[j].audience == d.issuer
    ensures e.Cycle? ==> exists i :: 0 <= i < |up| && up[i].link == e.link
  {
    var tail := up[|up| - 1];
    assert tail in ws;
    if e.ManyParents? {
      var i, j :| 0 <= i < j < |ws| && IsParent(ws[i], tail) && IsParent(ws[j], tail);
    } else if e.NoParent? {
      forall w | w in ws
        ensures w.audience != tail.issuer
      {
        var i :| 0 <= i < |ws| && ws[i] == w;
        assert !IsParent(ws[i], tail);
      }
    }
  }

  // --------------------------------------------------------------- methods

  /** The swaps that turn the walk root first, from the middle outwards. */
  method ReverseInPlace<T>(a: array<T>)
    modifies a
    ensures a[..] == Reverse(old(a[..]))
  {
    var n := a.Length;
    var i := n / 2 - 1;
    while i >= 0
      invariant -1 <= i <= n / 2 - 1
      invariant forall k :: i < k < n - 1 - i ==> a[k] == old(a[n - 1 - k])
      invariant forall k :: 0 <= k <= i || n - 1 - i <= k < n ==> a[k] == old(a[k])
    {
      var opposite := n - 1 - i;
      a[i], a[opposite] := a[opposite], a[i];
      i := i - 1;
    }
  }

  datatype Search = One(parent: Delegation) | Several | Nobody

  /** The inner loop: the parent of a delegation among the witnesses. */
  method FindParent(ws: seq<Delegation>, tail: Delegation) returns (s: Search)
    ensures s.One? ==> OnlyParent(ws, tail, s.parent)
    ensures s.Several? ==> exists i, j :: 0 <= i < j < |ws| && IsParent(ws[i], tail) && IsParent(ws[j], tail)
    ensures s.Nobody? ==> forall i :: 0 <= i < |ws| ==> !IsParent(ws[i], tail)
  {
    s := Nobody;
    ghost var at := 0;
    for k := 0 to |ws|
      invariant s.Nobody? ==> forall i :: 0 <= i < k ==> !IsParent(ws[i], tail)
      invariant s.One? ==> at < k && ws[at] == s.parent && IsParent(s.parent, tail)
      invariant s.One? ==> forall i :: 0 <= i < k && IsParent(ws[i], tail) ==> i == at
      invariant !s.Several?
    {
      if ws[k].audience != tail.issuer {
        continue;
      }
      if s.One? {
        return Several;
      }
      s, at := One(ws[k]), k;
    }
  }

  ghost function Links(ws: seq<Delegation>): set<Cid> {
    set i | 0 <= i < |ws| :: ws[i].link
  }

  method Walk(ws: seq<Delegation>, revoke: Cid, current: Delegation) returns (r: Result<seq<Delegation>, PathError>)
    requires LinksName(ws) && current in ws && current.link == revoke
    ensures r.Ok? ==> IsWalk(ws, revoke, r.value) && SelfIssued(r.value[|r.value| - 1])
    ensures r.Err? ==> exists up :: IsWalk(ws, revoke, up) && Blocked(ws, up, r.error)
  {
    var path := [current];
    var visited := {current.link};
    while !SelfIssued(path[|path| - 1])
      invariant IsWalk(ws, revoke, path)
      invariant visited == Links(path) <= Links(ws)
      decreases Links(ws) - visited
    {
      var tail := path[|path| - 1];
      var found := FindParent(ws, tail);
      if found.Several? {
        assert Blocked(ws, path, ManyParents(tail.link));
        return Err(ManyParents(tail.link));
      }
      if found.Nobody? {
        assert Blocked(ws, path, NoParent(tail.link));
        return Err(NoParent(tail.link));
      }
      var parent := found.parent;
      if parent.link in visited {
        assert Blocked(ws, path, Cycle(parent.link));
        return Err(Cycle(parent.link));
      }
      assert parent in ws && parent.link in Links(ws);
      ghost var was := path;
      visited := visited + {parent.link};
      path := path + [parent];
      assert Links(path) == visited by {
        assert forall i :: 0 <= i < |was| ==> path[i] == was[i];
        assert path[|was|] == parent;
      }
    }
    return Ok(path);
  }

  /**
   * Succeeds exactly when the revoker issued the revoked delegation, or when
   * following only parents from it reaches a self-issued one without repeating;
   * the result is that path. An error names what blocked the walk.
   */
  method BuildWitnessPath(revoke: Cid, revoker: Did, ws: seq<Delegation>)
    returns (r: Result<seq<Delegation>, PathError>)
    requires LinksName(ws)
    ensures r == Err(RevokedMissing) <==> !Has(ws, revoke)
    ensures forall d :: IsDirect(ws, revoke, revoker, d) ==> r == Ok([d])
    ensures r.Ok? <==>
      (exists d :: IsDirect(ws, revoke, revoker, d)) || (exists path :: IsWitness(ws, revoke, path))
    ensures r.Ok? ==> IsResult(ws, revoke, revoker, r.value)
    ensures r.Err? && r.error != RevokedMissing ==>
      exists up :: IsWalk(ws, revoke, up) && Blocked(ws, up, r.error)
  {
    var delegations := ByLink(ws);
    if revoke !in delegations {
      return Err(RevokedMissing);
    }
    var current := delegations[revoke];
    assert Has(ws, revoke);
    SameLink(ws, revoke, current);
    if current.issuer == revoker {
      assert IsDirect(ws, revoke, revoker, current);
      return Ok([current]);
    }
    r := Walk(ws, revoke, current);
    if r.Err? {
      ghost var blocked :| IsWalk(ws, revoke, blocked) && Blocked(ws, blocked, r.error);
      WitnessMeansUnblocked(ws, revoke, blocked, r.error);
      return;
    }
    var up := r.value;
    WalkReversed(ws, revoke, up);
    var path := new Delegation[|up|](i requires 0 <= i < |up| => up[i]);
    assert path[..] == up;
    ReverseInPlace(path);
    return Ok(path[..]);
  }

  lemma SameLink(ws: seq<Delegation>, link: Cid, d: Delegation)
    requires LinksName(ws) && d in ws && d.link == link
    ensures forall e :: e in ws && e.link == link ==> e == d
  {
  }

  /** What a successful call returns. */
  ghost predicate IsResult(ws: seq<Delegation>, revoke: Cid, revoker: Did, path: seq<Delegation>) {
    || (|path| == 1 && IsDirect(ws, revoke, revoker, path[0]))
    || (IsWitness(ws, revoke, path) && path[|path| - 1].issuer != revoker)
  }
}
