// Delegations, as far as revoking one is concerned.

module Delegations {
  import opened Types

  /** A principal, or did.Undef. */
  datatype Did = Undef | Did(id: int)

  datatype Delegation = Delegation(link: Cid, issuer: Did, audience: Did, subject: Did)

  predicate SelfIssued(d: Delegation) {
    d.issuer == d.subject
  }

  /** A link is the hash of what it names, so it names one delegation. */
  ghost predicate LinksName(ds: seq<Delegation>) {
    forall i, j :: 0 <= i < |ds| && 0 <= j < |ds| && ds[i].link == ds[j].link ==> ds[i] == ds[j]
  }

  /** Each delegation is issued by the audience of the one before it. */
  ghost predicate Linked(path: seq<Delegation>) {
    forall i :: 0 < i < |path| ==> path[i].issuer == path[i - 1].audience
  }

  ghost predicate DistinctLinks(path: seq<Delegation>) {
    forall i, j :: 0 <= i < j < |path| ==> path[i].link != path[j].link
  }

  function LinksOf(ds: seq<Delegation>): (links: seq<Cid>)
    ensures |links| == |ds|
    ensures forall i :: 0 <= i < |ds| ==> links[i] == ds[i].link
  {
    seq(|ds|, i requires 0 <= i < |ds| => ds[i].link)
  }

  /** The map from links to delegations that both sides start from. */
  method ByLink(ds: seq<Delegation>) returns (m: map<Cid, Delegation>)
    ensures forall l :: l in m ==> m[l] in ds && m[l].link == l
    ensures forall d :: d in ds ==> d.link in m
  {
    m := map[];
    for i := 0 to |ds|
      invariant forall l :: l in m ==> m[l] in ds && m[l].link == l
      invariant forall j :: 0 <= j < i ==> ds[j].link in m
    {
      m := m[ds[i].link := ds[i]];
    }
  }
}
