// Publish of pkg/client/client.go, and the end-to-end meaning of publishing
// what the command line's witness path search returns.

module Acceptance {
  import opened Types
  import opened Delegations
  import opened WitnessPath
  import opened RevokeServer

  // --------------------------------------------------------------- publish

  /** The witness path without the revoked delegation, if it was given with it. */
  function Proofs(revoked: Delegation, path: seq<Delegation>): seq<Delegation> {
    if path != [] && path[|path| - 1].link == revoked.link then path[..|path| - 1] else path
  }

  /** The invocation Publish sends: the argument path is empty when the revoker needs no proofs. */
  function Published(revoker: Did, revoked: Delegation, path: seq<Delegation>): Request {
    var proofs := Proofs(revoked, path);
    var witnesses := proofs + [revoked];
    Request(revoker, revoked.link, if proofs == [] then [] else LinksOf(witnesses), witnesses)
  }

  method Publish(revoker: Did, revoked: Delegation, witnessPath: seq<Delegation>) returns (req: Request)
    ensures req == Published(revoker, revoked, witnessPath)
    ensures req.issuer == revoker && req.revoke == revoked.link
    ensures
      var given := witnessPath != [] && witnessPath[|witnessPath| - 1].link == revoked.link;
      req.metadata == (if given then witnessPath[..|witnessPath| - 1] else witnessPath) + [revoked]
    ensures req.path == if |req.metadata| == 1 then [] else LinksOf(req.metadata)
  {
    var path := witnessPath;
    if |path| > 0 && path[|path| - 1].link == revoked.link {
      path := path[..|path| - 1];
    }
    var witnesses := path + [revoked];
    var links: seq<Cid> := [];
    if |path| > 0 {
      var args := new Cid[|witnesses|](_ => revoked.link);
      for i := 0 to |witnesses|
        invariant forall j :: 0 <= j < i ==> args[j] == witnesses[j].link
      {
        args[i] := witnesses[i].link;
      }
      links := args[..];
      assert links == LinksOf(witnesses);
    }
    return Request(revoker, revoked.link, links, witnesses);
  }

  /** Giving the revoked delegation at the end of the witness path makes no difference. */
  lemma RevokedIsOptional(revoker: Did, revoked: Delegation, path: seq<Delegation>)
    requires path == [] || path[|path| - 1].link != revoked.link
    ensures Published(revoker, revoked, path + [revoked]) == Published(revoker, revoked, path)
  {
    assert (path + [revoked])[..|path|] == path;
  }

  // ------------------------------------------------------------ acceptance

  /** The request as the service sees it: the same delegations, in whatever order they travelled. */
  ghost predicate Arrives(sent: Request, req: Request) {
    && req == sent.(metadata := req.metadata)
    && (forall d :: d in req.metadata <==> d in sent.metadata)
  }

  /** What of a found path is left for the service to check: a later subject is the root's or undefined. */
  ghost predicate Acceptable(path: seq<Delegation>, revoker: Did, valid: Validity)
    requires path != []
  {
    && (forall i :: 0 <= i < |path| ==> valid(path[i]))
    && (forall i :: 0 < i < |path| ==> path[i].subject == path[0].subject || path[i].subject == Undef)
    && (exists i :: 0 <= i < |path| && path[i].issuer == revoker)
  }

  /** The request the command makes of its result names exactly that path. */
  lemma PublishedNames(ws: seq<Delegation>, revoke: Cid, revoker: Did, path: seq<Delegation>)
    requires IsResult(ws, revoke, revoker, path)
    ensures
      var revoked := path[|path| - 1];
      var req := Published(revoker, revoked, path[..|path| - 1]);
      && req.metadata == path && req.revoke == revoke && req.issuer == revoker
      && req.path == (if |path| == 1 then [] else LinksOf(path))
  {
    var k := |path| - 1;
    assert path[..k] + [path[k]] == path;
    if k > 0 {
      assert path[..k][k - 1].link == path[k - 1].link != path[k].link;
    }
  }

  lemma WitnessIsValidIff(ws: seq<Delegation>, revoke: Cid, path: seq<Delegation>, valid: Validity)
    requires IsWitness(ws, revoke, path)
    ensures ValidPath(path, valid) <==>
      && (forall i :: 0 <= i < |path| ==> valid(path[i]))
      && (forall i :: 0 < i < |path| ==> path[i].subject == path[0].subject || path[i].subject == Undef)
  {
    if ValidPath(path, valid) {
      forall i | 0 <= i < |path|
        ensures valid(path[i]) && SubjectFits(path, i)
      {
        assert Sound(path, valid, i);
      }
    }
  }

  /** The request names `path`, and carries nothing else. */
  ghost predicate Names(req: Request, path: seq<Delegation>, revoke: Cid, revoker: Did) {
    && req.revoke == revoke && req.issuer == revoker
    && req.path == (if |path| == 1 then [] else LinksOf(path))
    && (forall d :: d in req.metadata <==> d in path)
  }

  lemma {:induction false} ArrivedNames(ws: seq<Delegation>, revoke: Cid, revoker: Did, path: seq<Delegation>,
                                        req: Request)
    requires IsResult(ws, revoke, revoker, path)
    requires Arrives(Published(revoker, path[|path| - 1], path[..|path| - 1]), req)
    ensures Names(req, path, revoke, revoker)
  {
    PublishedNames(ws, revoke, revoker, path);
  }

  lemma {:induction false} NamesIncludes(req: Request, path: seq<Delegation>, revoke: Cid, revoker: Did)
    requires Names(req, path, revoke, revoker) && path != [] && path[|path| - 1].link == revoke
    ensures Includes(req.metadata, revoke)
  {
    var revoked := path[|path| - 1];
    assert revoked in req.metadata;
    var i :| 0 <= i < |req.metadata| && req.metadata[i] == revoked;
  }

  /** The service accepts `path` itself exactly when it is acceptable. */
  lemma {:induction false} AcceptsPathIff(ws: seq<Delegation>, revoke: Cid, revoker: Did, path: seq<Delegation>,
                                          req: Request, valid: Validity)
    requires IsResult(ws, revoke, revoker, path) && Names(req, path, revoke, revoker)
    ensures Accepts(req, valid, path) <==> Acceptable(path, revoker, valid)
  {
    NamesIncludes(req, path, revoke, revoker);
    if |path| == 1 {
      assert path[0] in req.metadata;
    } else {
      NamedResolves(req, path, revoke, revoker);
      WitnessIsValidIff(ws, revoke, path, valid);
    }
  }

  lemma {:induction false} NamedResolves(req: Request, path: seq<Delegation>, revoke: Cid, revoker: Did)
    requires Names(req, path, revoke, revoker) && |path| > 1
    ensures Resolves(req, path)
  {
    forall i | 0 <= i < |path|
      ensures path[i] in req.metadata && path[i].link == req.path[i]
    {
      assert path[i] in path;
    }
  }

  lemma ResultIsNamed(ws: seq<Delegation>, revoke: Cid, revoker: Did, path: seq<Delegation>)
    requires LinksName(ws) && IsResult(ws, revoke, revoker, path)
    ensures LinksName(path)
  {
    forall i, j | 0 <= i < |path| && 0 <= j < |path| && path[i].link == path[j].link
      ensures path[i] == path[j]
    {
      assert path[i] in ws && path[j] in ws;
    }
  }

  /** A request that names `path`, and carries nothing else, is accepted with that path alone. */
  lemma {:induction false} AcceptsOnlyPath(path: seq<Delegation>, revoke: Cid, revoker: Did,
                                           req: Request, valid: Validity, stored: seq<Delegation>)
    requires LinksName(path) && path != [] && Names(req, path, revoke, revoker)
    ensures Accepts(req, valid, stored) ==> stored == path
  {
    if Accepts(req, valid, stored) {
      if |path| == 1 {
        assert stored[0] in path;
      } else {
        forall i | 0 <= i < |path|
          ensures stored[i] == path[i]
        {
          assert stored[i] in path;
        }
      }
    }
  }

  lemma {:induction false} NamedIff(ws: seq<Delegation>, revoke: Cid, revoker: Did, path: seq<Delegation>,
                                    req: Request, valid: Validity)
    requires LinksName(path) && IsResult(ws, revoke, revoker, path) && Names(req, path, revoke, revoker)
    ensures (exists stored :: Accepts(req, valid, stored)) <==> Acceptable(path, revoker, valid)
    ensures forall stored :: Accepts(req, valid, stored) ==> stored == path
  {
    AcceptsPathIff(ws, revoke, revoker, path, req, valid);
    forall stored
      ensures Accepts(req, valid, stored) ==> stored == path
    {
      AcceptsOnlyPath(path, revoke, revoker, req, valid, stored);
    }
  }

  /**
   * Exact acceptance, from the command line to the store: publishing what the
   * search returned is accepted if and only if every token on it is valid,
   * every subject past the root is the root's or undefined, and the revoker
   * issued some delegation on it; and the path stored is the path found.
   */
  lemma {:induction false} AcceptedIff(ws: seq<Delegation>, revoke: Cid, revoker: Did, path: seq<Delegation>,
                                       req: Request, valid: Validity)
    requires LinksName(ws) && IsResult(ws, revoke, revoker, path)
    requires Arrives(Published(revoker, path[|path| - 1], path[..|path| - 1]), req)
    ensures (exists stored :: Accepts(req, valid, stored)) <==> Acceptable(path, revoker, valid)
    ensures forall stored :: Accepts(req, valid, stored) ==> stored == path
  {
    ArrivedNames(ws, revoke, revoker, path, req);
    ResultIsNamed(ws, revoke, revoker, path);
    NamedIff(ws, revoke, revoker, path, req, valid);
  }

  /** Publishing a found path, and the service's verdict on it. */
  method PublishFound(ws: seq<Delegation>, revoke: Cid, revoker: Did, path: seq<Delegation>, valid: Validity)
    returns (verdict: Result<seq<Delegation>, Refusal>)
    requires LinksName(ws) && IsResult(ws, revoke, revoker, path)
    ensures verdict.Ok? <==> Acceptable(path, revoker, valid)
    ensures verdict.Ok? ==> verdict.value == path
  {
    var req := Publish(revoker, path[|path| - 1], path[..|path| - 1]);
    PublishedIsNamed(ws, revoke, revoker, path);
    verdict := RevocationPath(req, valid);
    AcceptedIff(ws, revoke, revoker, path, req, valid);
  }

  lemma {:induction false} PublishedIsNamed(ws: seq<Delegation>, revoke: Cid, revoker: Did, path: seq<Delegation>)
    requires LinksName(ws) && IsResult(ws, revoke, revoker, path)
    ensures
      var req := Published(revoker, path[|path| - 1], path[..|path| - 1]);
      LinksName(req.metadata) && Arrives(req, req)
  {
    PublishedNames(ws, revoke, revoker, path);
    ResultIsNamed(ws, revoke, revoker, path);
  }

  /** The whole flow of the revoke command, as far as the service's verdict. */
  method Revoke(revoke: Cid, revoker: Did, ws: seq<Delegation>, valid: Validity)
    returns (found: Result<seq<Delegation>, PathError>, verdict: Option<Result<seq<Delegation>, Refusal>>)
    requires LinksName(ws)
    ensures found.Ok? <==>
      (exists d :: IsDirect(ws, revoke, revoker, d)) || (exists path :: IsWitness(ws, revoke, path))
    ensures found.Ok? <==> verdict.Some?
    ensures found.Ok? ==> found.value != [] && (verdict.value.Ok? <==> Acceptable(found.value, revoker, valid))
    ensures found.Ok? && verdict.value.Ok? ==> verdict.value.value == found.value
  {
    found := BuildWitnessPath(revoke, revoker, ws);
    if found.Err? {
      return found, None;
    }
    var answer := PublishFound(ws, revoke, revoker, found.value, valid);
    return found, Some(answer);
  }
}
