// revocationPath and validateRevocationPath of pkg/fx/app.go: what makes the
// service accept one revocation, and the path it stores with it.

module RevokeServer {
  import opened Types
  import opened Delegations

  /** A /ucan/revoke invocation: its issuer, its arguments and the delegations in its metadata. */
  datatype Request = Request(issuer: Did, revoke: Cid, path: seq<Cid>, metadata: seq<Delegation>)

  /** Token validation, which is external; its verdicts hold for the whole request. */
  type Validity = Delegation -> bool

  datatype PathFault =
    | EmptyPath
    | RootNotSelfIssued
    | InvalidToken(index: nat)
    | DifferentSubject(index: nat)
    | NotLinked(index: nat)

  datatype Refusal =
    | RevokedNotIncluded
    | WitnessRequired
    | RevokedInvalid
    | NotIncluded(index: nat)
    | WrongEnd
    | BadPath(fault: PathFault)
    | IssuerNotInPath

  // --------------------------------------------------------- specification

  predicate SubjectFits(path: seq<Delegation>, i: nat)
    requires 0 < |path| && i < |path|
  {
    path[i].subject == path[0].subject || path[i].subject == Undef
  }

  /** The delegation at `i` passes every check the loop makes of it. */
  ghost predicate Sound(path: seq<Delegation>, valid: Validity, i: nat)
    requires i < |path|
  {
    valid(path[i]) && (i > 0 ==> SubjectFits(path, i) && path[i].issuer == path[i - 1].audience)
  }

  ghost predicate ValidPath(path: seq<Delegation>, valid: Validity) {
    && path != [] && SelfIssued(path[0])
    && (forall i :: 0 <= i < |path| ==> Sound(path, valid, i))
  }

  ghost predicate IssuedOneOf(path: seq<Delegation>, did: Did) {
    exists i :: 0 <= i < |path| && path[i].issuer == did
  }

  /** `path` is the metadata's delegations in the order the arguments name them. */
  ghost predicate Resolves(req: Request, path: seq<Delegation>) {
    && |path| == |req.path|
    && (forall i :: 0 <= i < |path| ==> path[i] in req.metadata && path[i].link == req.path[i])
  }

  ghost predicate Includes(metadata: seq<Delegation>, link: Cid) {
    exists i :: 0 <= i < |metadata| && metadata[i].link == link
  }

  /** The request may revoke what it names, and `path` is to be stored with it. */
  ghost predicate Accepts(req: Request, valid: Validity, path: seq<Delegation>) {
    && Includes(req.metadata, req.revoke)
    && path != [] && path[|path| - 1].link == req.revoke
    && if req.path == [] then
         |path| == 1 && path[0] in req.metadata && path[0].issuer == req.issuer && valid(path[0])
       else
         Resolves(req, path) && ValidPath(path, valid) && IssuedOneOf(path, req.issuer)
  }

  /** Why a request is refused: the first check that fails. */
  ghost predicate RefusedFor(req: Request, valid: Validity, e: Refusal) {
    match e
    case RevokedNotIncluded => !Includes(req.metadata, req.revoke)
    case WitnessRequired =>
      req.path == [] && exists d :: d in req.metadata && d.link == req.revoke && d.issuer != req.issuer
    case RevokedInvalid =>
      req.path == [] && exists d :: d in req.metadata && d.link == req.revoke && d.issuer == req.issuer && !valid(d)
    case NotIncluded(i) =>
      && Includes(req.metadata, req.revoke) && i < |req.path| && !Includes(req.metadata, req.path[i])
      && (forall j :: 0 <= j < i ==> Includes(req.metadata, req.path[j]))
    case WrongEnd =>
      && Includes(req.metadata, req.revoke) && req.path != [] && req.path[|req.path| - 1] != req.revoke
      && (exists path :: Resolves(req, path))
    case BadPath(fault) =>
      && req.path != [] && req.path[|req.path| - 1] == req.revoke
      && (exists path :: Resolves(req, path) && Faulty(path, valid, fault))
    case IssuerNotInPath =>
      && req.path != [] && req.path[|req.path| - 1] == req.revoke
      && (exists path :: Resolves(req, path) && ValidPath(path, valid) && !IssuedOneOf(path, req.issuer))
  }

  ghost predicate Faulty(path: seq<Delegation>, valid: Validity, fault: PathFault) {
    match fault
    case EmptyPath => path == []
    case RootNotSelfIssued => path != [] && !SelfIssued(path[0])
    case InvalidToken(i) => SoundUpTo(path, valid, i) && !valid(path[i])
    case DifferentSubject(i) => SoundUpTo(path, valid, i) && valid(path[i]) && !SubjectFits(path, i)
    case NotLinked(i) =>
      SoundUpTo(path, valid, i) && valid(path[i]) && SubjectFits(path, i)
      && i > 0 && path[i].issuer != path[i - 1].audience
  }

  ghost predicate SoundUpTo(path: seq<Delegation>, valid: Validity, i: nat) {
    i < |path| && SelfIssued(path[0]) && forall j :: 0 <= j < i ==> Sound(path, valid, j)
  }

  /** A valid path is a linked chain of valid tokens from a self-issued root, each with its subject or none. */
  lemma {:induction false} ValidPathIff(path: seq<Delegation>, valid: Validity)
    ensures ValidPath(path, valid) <==>
      && path != [] && path[0].issuer == path[0].subject
      && (forall i :: 0 <= i < |path| ==> valid(path[i]))
      && (forall i :: 0 < i < |path| ==>
            && path[i].issuer == path[i - 1].audience
            && (path[i].subject == path[0].subject || path[i].subject == Undef))
  {
    if ValidPath(path, valid) {
      forall i | 0 <= i < |path|
        ensures valid(path[i])
      {
        assert Sound(path, valid, i);
      }
      forall i | 0 < i < |path|
        ensures path[i].issuer == path[i - 1].audience
        ensures path[i].subject == path[0].subject || path[i].subject == Undef
      {
        assert Sound(path, valid, i);
      }
    } else if path != [] && SelfIssued(path[0]) {
      var i :| 0 <= i < |path| && !Sound(path, valid, i);
      assert !valid(path[i]) || i > 0;
    }
  }

  lemma ResolvesOnce(req: Request, one: seq<Delegation>, other: seq<Delegation>)
    requires LinksName(req.metadata) && Resolves(req, one) && Resolves(req, other)
    ensures one == other
  {
    forall i | 0 <= i < |one|
      ensures one[i] == other[i]
    {
      assert one[i] in req.metadata && other[i] in req.metadata;
    }
  }

  lemma ValidIsNotFaulty(path: seq<Delegation>, valid: Validity, fault: PathFault)
    requires ValidPath(path, valid)
    ensures !Faulty(path, valid, fault)
  {
    if !fault.EmptyPath? && !fault.RootNotSelfIssued? && fault.index < |path| {
      assert Sound(path, valid, fault.index);
    }
  }

  lemma AcceptedIsNotRefused(req: Request, valid: Validity, path: seq<Delegation>, e: Refusal)
    requires LinksName(req.metadata) && Accepts(req, valid, path)
    ensures !RefusedFor(req, valid, e)
  {
    if req.path == [] {
      forall d | d in req.metadata && d.link == req.revoke
        ensures d == path[0]
      {
        assert path[0] in req.metadata;
      }
    } else {
      assert forall i :: 0 <= i < |path| ==> path[i] in req.metadata && Includes(req.metadata, req.path[i]);
      forall q | Resolves(req, q)
        ensures q == path
      {
        ResolvesOnce(req, q, path);
      }
      if e.BadPath? {
        ValidIsNotFaulty(path, valid, e.fault);
      }
    }
  }

  /** A request is never both accepted and refused, and what is stored is determined. */
  lemma AcceptedOrRefused(req: Request, valid: Validity, path: seq<Delegation>)
    requires LinksName(req.metadata) && Accepts(req, valid, path)
    ensures forall e :: !RefusedFor(req, valid, e)
    ensures forall other :: Accepts(req, valid, other) ==> other == path
  {
    forall e
      ensures !RefusedFor(req, valid, e)
    {
      AcceptedIsNotRefused(req, valid, path, e);
    }
    forall other | Accepts(req, valid, other)
      ensures other == path
    {
      if req.path == [] {
        assert other[0] == path[0];
      } else {
        ResolvesOnce(req, other, path);
      }
    }
  }

  // --------------------------------------------------------------- methods

  method ValidateRevocationPath(path: seq<Delegation>, valid: Validity) returns (fault: Option<PathFault>)
    ensures fault == None <==> ValidPath(path, valid)
    ensures fault.Some? ==> Faulty(path, valid, fault.value)
    ensures fault == None <==>
      && path != [] && path[0].issuer == path[0].subject
      && (forall i :: 0 <= i < |path| ==> valid(path[i]))
      && (forall i :: 0 < i < |path| ==>
            && path[i].issuer == path[i - 1].audience
            && (path[i].subject == path[0].subject || path[i].subject == Undef))
    ensures fault == Some(EmptyPath) <==> path == []
    ensures fault == Some(RootNotSelfIssued) <==> path != [] && path[0].issuer != path[0].subject
    ensures fault.Some? && fault.value.InvalidToken? ==>
      fault.value.index < |path| && !valid(path[fault.value.index])
    ensures fault.Some? && fault.value.DifferentSubject? ==>
      var i := fault.value.index;
      0 < i < |path| && path[i].subject != path[0].subject && path[i].subject != Undef
    ensures fault.Some? && fault.value.NotLinked? ==>
      var i := fault.value.index;
      0 < i < |path| && path[i].issuer != path[i - 1].audience
  {
    ValidPathIff(path, valid);
    if |path| == 0 {
      return Some(EmptyPath);
    }
    var rootSubject := path[0].subject;
    if rootSubject != path[0].issuer {
      return Some(RootNotSelfIssued);
    }
    for i := 0 to |path|
      invariant forall j :: 0 <= j < i ==> Sound(path, valid, j)
    {
      var delegation := path[i];
      if !valid(delegation) {
        assert !Sound(path, valid, i);
        return Some(InvalidToken(i));
      }
      if i == 0 {
        continue;
      }
      if delegation.subject != rootSubject && delegation.subject != Undef {
        assert !Sound(path, valid, i);
        return Some(DifferentSubject(i));
      }
      if delegation.issuer != path[i - 1].audience {
        assert !Sound(path, valid, i);
        return Some(NotLinked(i));
      }
    }
    return None;
  }

  /** The delegations an argument path names, or the first index that is not in the metadata. */
  method Resolve(req: Request, witnesses: map<Cid, Delegation>) returns (path: seq<Delegation>, missing: nat)
    requires forall l :: l in witnesses ==> witnesses[l] in req.metadata && witnesses[l].link == l
    requires forall d :: d in req.metadata ==> d.link in witnesses
    requires Includes(req.metadata, req.revoke)
    ensures missing <= |req.path|
    ensures missing == |req.path| ==> Resolves(req, path)
    ensures missing < |req.path| ==> RefusedFor(req, _ => true, NotIncluded(missing))
  {
    path := [];
    while |path| < |req.path|
      invariant |path| <= |req.path|
      invariant forall i :: 0 <= i < |path| ==> path[i] in req.metadata && path[i].link == req.path[i]
    {
      var i := |path|;
      var link := req.path[i];
      if link !in witnesses {
        assert forall j :: 0 <= j < i ==> Includes(req.metadata, req.path[j]);
        return path, i;
      }
      path := path + [witnesses[link]];
    }
    return path, |path|;
  }

  /** What is accepted, in terms of what the request carries. */
  ghost predicate MayRevoke(req: Request, valid: Validity, path: seq<Delegation>) {
    && path != [] && path[|path| - 1].link == req.revoke
    && (forall i :: 0 <= i < |path| ==> path[i] in req.metadata && valid(path[i]))
    && if req.path == [] then |path| == 1 && path[0].issuer == req.issuer
       else
         && |path| == |req.path| && (forall i :: 0 <= i < |path| ==> path[i].link == req.path[i])
         && path[0].issuer == path[0].subject
         && (forall i :: 0 < i < |path| ==>
               && path[i].issuer == path[i - 1].audience
               && (path[i].subject == path[0].subject || path[i].subject == Undef))
         && (exists i :: 0 <= i < |path| && path[i].issuer == req.issuer)
  }

  lemma {:induction false} MayRevokeIff(req: Request, valid: Validity, path: seq<Delegation>)
    ensures Accepts(req, valid, path) <==> MayRevoke(req, valid, path)
  {
    ValidPathIff(path, valid);
    if MayRevoke(req, valid, path) {
      var last := path[|path| - 1];
      assert last in req.metadata;
      var i :| 0 <= i < |req.metadata| && req.metadata[i] == last;
      assert Includes(req.metadata, req.revoke);
    }
  }

  /** Each reason in terms of what the request carries. */
  lemma {:induction false} RefusedMeans(req: Request, valid: Validity, e: Refusal)
    requires LinksName(req.metadata) && RefusedFor(req, valid, e)
    ensures e.RevokedNotIncluded? <==> forall d :: d in req.metadata ==> d.link != req.revoke
    ensures e.WitnessRequired? ==>
      req.path == [] && forall d :: d in req.metadata && d.link == req.revoke ==> d.issuer != req.issuer
    ensures e.RevokedInvalid? ==>
      req.path == [] && forall d :: d in req.metadata && d.link == req.revoke ==> d.issuer == req.issuer && !valid(d)
    ensures e.NotIncluded? ==>
      && e.index < |req.path| && (forall d :: d in req.metadata ==> d.link != req.path[e.index])
      && (forall j :: 0 <= j < e.index ==> exists d :: d in req.metadata && d.link == req.path[j])
    ensures e.WrongEnd? ==> req.path != [] && req.path[|req.path| - 1] != req.revoke
    ensures e.BadPath? ==> exists path :: Resolves(req, path) && Faulty(path, valid, e.fault)
    ensures e.IssuerNotInPath? ==>
      && req.path != []
      && forall path: seq<Delegation>, i :: Resolves(req, path) && 0 <= i < |path| ==> path[i].issuer != req.issuer
  {
    IncludesIff(req.metadata, req.revoke);
    forall i | 0 <= i < |req.path|
      ensures Includes(req.metadata, req.path[i]) <==> exists d :: d in req.metadata && d.link == req.path[i]
    {
      IncludesIff(req.metadata, req.path[i]);
    }
    if e.IssuerNotInPath? {
      var one :| Resolves(req, one) && ValidPath(one, valid) && !IssuedOneOf(one, req.issuer);
      forall path | Resolves(req, path)
        ensures path == one
      {
        ResolvesOnce(req, path, one);
      }
    }
  }

  lemma {:induction false} IncludesIff(metadata: seq<Delegation>, link: Cid)
    ensures Includes(metadata, link) <==> exists d :: d in metadata && d.link == link
  {
    if d :| d in metadata && d.link == link {
      var i :| 0 <= i < |metadata| && metadata[i] == d;
    }
  }

  /** Accepts exactly what Accepts describes, with that path; a refusal says which check failed first. */
  method RevocationPath(req: Request, valid: Validity) returns (r: Result<seq<Delegation>, Refusal>)
    requires LinksName(req.metadata)
    ensures r.Ok? ==> Accepts(req, valid, r.value)
    ensures r.Err? ==> RefusedFor(req, valid, r.error)
    ensures r.Ok? <==> exists path :: Accepts(req, valid, path)
    ensures forall path :: r == Ok(path) <==> MayRevoke(req, valid, path)
  {
    r := Check(req, valid);
    if path :| Accepts(req, valid, path) {
      AcceptedOrRefused(req, valid, path);
    }
    forall path
      ensures Accepts(req, valid, path) <==> MayRevoke(req, valid, path)
    {
      MayRevokeIff(req, valid, path);
    }
  }

  method Check(req: Request, valid: Validity) returns (r: Result<seq<Delegation>, Refusal>)
    requires LinksName(req.metadata)
    ensures r.Ok? ==> Accepts(req, valid, r.value)
    ensures r.Err? ==> RefusedFor(req, valid, r.error)
  {
    var witnesses := ByLink(req.metadata);
    if req.revoke !in witnesses {
      return Err(RevokedNotIncluded);
    }
    var revoked := witnesses[req.revoke];
    assert Includes(req.metadata, req.revoke);
    if |req.path| == 0 {
      if revoked.issuer != req.issuer {
        return Err(WitnessRequired);
      }
      if !valid(revoked) {
        return Err(RevokedInvalid);
      }
      return Ok([revoked]);
    }
    var path, missing := Resolve(req, witnesses);
    if missing < |req.path| {
      return Err(NotIncluded(missing));
    }
    if path[|path| - 1].link != req.revoke {
      return Err(WrongEnd);
    }
    var fault := ValidateRevocationPath(path, valid);
    if fault.Some? {
      assert Resolves(req, path) && Faulty(path, valid, fault.value);
      return Err(BadPath(fault.value));
    }
    var issuerFound := false;
    for i := 0 to |path|
      invariant !issuerFound && forall j :: 0 <= j < i ==> path[j].issuer != req.issuer
    {
      if path[i].issuer == req.issuer {
        issuerFound := true;
        break;
      }
    }
    if !issuerFound {
      return Err(IssuerNotInPath);
    }
    return Ok(path);
  }

  // ------------------------------------------------------------- soundness

  /** Some delegation on the path was issued by `did`, and from there the path is a linked chain to `revoke`. */
  ghost predicate ProvesAuthority(path: seq<Delegation>, did: Did, revoke: Cid) {
    && path != [] && path[|path| - 1].link == revoke
    && exists i :: 0 <= i < |path| && path[i].issuer == did && Linked(path[i..])
  }

  /** Whatever is accepted proves the revoker's authority over what it revokes, with valid tokens only. */
  lemma AcceptedIsSound(req: Request, valid: Validity, path: seq<Delegation>)
    requires Accepts(req, valid, path)
    ensures ProvesAuthority(path, req.issuer, req.revoke)
    ensures forall i :: 0 <= i < |path| ==> valid(path[i])
  {
    if req.path == [] {
      assert Linked(path[0..]);
    } else {
      var i :| 0 <= i < |path| && path[i].issuer == req.issuer;
      forall j | 0 < j < |path[i..]|
        ensures path[i..][j].issuer == path[i..][j - 1].audience
      {
        assert Sound(path, valid, i + j);
      }
      forall j | 0 <= j < |path|
        ensures valid(path[j])
      {
        assert Sound(path, valid, j);
      }
    }
  }
}
