/**
 The life of a listener's conditions: created from the allowed route kinds, changed by the TLS
 validator and by route attachment, adjusted before deployment, and published.

 The source keeps the conditions in an ordered set whose order compares only a condition's class, so
 at most one condition of a class is present. The model is a map from class to condition.
 */
module ListenerStatus {
  import opened Prelude
  import opened Orders

  datatype ResolvedRefs =
    | Resolved(kinds: seq<string>)
    | ResolvedWithNotAllowedRoutes(kinds: seq<string>)
    | InvalidAllowedRoutes
    | InvalidCertificates(kinds: seq<string>)
    | InvalidBackend(kinds: seq<string>)
    | RefNotPermitted(kinds: seq<string>)

  datatype Condition =
    | Refs(refs: ResolvedRefs)
    | UnresolvedRouteRefs
    | Accepted
    | NotAccepted
    | Programmed
    | NotProgrammed

  function Class(c: Condition): (k: nat)
    ensures k <= 3
  {
    match c
    case Refs(_) => 0
    case Accepted => 1
    case NotAccepted => 1
    case Programmed => 2
    case NotProgrammed => 2
    case UnresolvedRouteRefs => 3
  }

  type Conditions = map<nat, Condition>

  ghost predicate ByClass(cs: Conditions) {
    forall k :: k in cs ==> Class(cs[k]) == k
  }

  function Replace(cs: Conditions, c: Condition): Conditions {
    cs[Class(c) := c]
  }

  /** Does nothing when a condition of the class is present. */
  function Insert(cs: Conditions, c: Condition): Conditions {
    if Class(c) in cs then cs else cs[Class(c) := c]
  }

  function Remove(cs: Conditions, c: Condition): Conditions {
    cs - {Class(c)}
  }

  // ---------------------------------------------------------------------------------------------
  // Listeners
  // ---------------------------------------------------------------------------------------------

  datatype Protocol = Http | Https | Tcp | Tls | Udp

  datatype Certificate =
    | ResolvedSameSpace(key: ResourceKey, cert: string, privateKey: string)
    | ResolvedCrossSpace(key: ResourceKey, cert: string, privateKey: string)
    | NotResolved(key: ResourceKey)
    | Invalid(key: ResourceKey)

  datatype TlsType = Terminate(certificates: seq<Certificate>) | Passthrough

  datatype Reason =
    | Unknown | NotAllowedByListeners | NoMatchingListenerHostname | InvalidBackendRef | BackendNotFound
    | ReferenceNotPermitted | NoMatchingParent

  datatype Resolution = RouteResolved | RouteNotResolved(reason: Reason)

  /** An ordered set of routes, compared by key, with the resolution status of each. */
  type Routes = map<ResourceKey, Resolution>

  datatype Listener = Listener(protocol: Protocol, tls: Option<TlsType>, conditions: Conditions,
                               resolved: Routes, unresolved: Routes, attached: nat)

  const APPROVED_ROUTES := ["GRPCRoute", "HTTPRoute", "TCPRoute"]

  function Approved(kinds: seq<string>): (out: seq<string>)
    ensures forall k :: k in out <==> k in kinds && k in APPROVED_ROUTES
  {
    if kinds == [] then []
    else (if kinds[0] in APPROVED_ROUTES then [kinds[0]] else []) + Approved(kinds[1..])
  }

  /** The condition a listener starts with. `kinds` is the list of allowed kinds, if one is given. */
  function AllowedRoutes(protocol: Protocol, kinds: Option<seq<string>>): Condition {
    match kinds
    case Some(ks) =>
      if forall k :: k in ks ==> k in APPROVED_ROUTES then Refs(Resolved(Approved(ks)))
      else if Approved(ks) == [] then Refs(InvalidAllowedRoutes)
      else Refs(ResolvedWithNotAllowedRoutes(Approved(ks)))
    case None =>
      if protocol.Http? || protocol.Https? then Refs(Resolved(["HTTPRoute", "GRPCRoute"]))
      else Refs(Resolved([]))
  }

  function Create(protocol: Protocol, tls: Option<TlsType>, kinds: Option<seq<string>>): Listener {
    Listener(protocol, tls, Replace(map[], AllowedRoutes(protocol, kinds)), map[], map[], 0)
  }

  // ---------------------------------------------------------------------------------------------
  // TLS validation
  // ---------------------------------------------------------------------------------------------

  datatype SecretData = SecretData(certificate: Option<string>, privateKey: Option<string>)

  datatype Secret = Secret(isTls: bool, data: Option<SecretData>)

  /** What the validator looks up: the resolved secrets, the secrets that reference grants allow the
      gateway to use, and which encodings parse as certificates and keys. */
  datatype Lookup = Lookup(namespace: string, secrets: map<ResourceKey, Secret>, granted: set<ResourceKey>,
                           certificates: set<string>, privateKeys: set<string>)

  datatype Failure = BadCertificate | NotPermitted

  datatype Checked = Checked(certificate: Certificate, failure: Option<Failure>)

  function CheckCertificate(env: Lookup, c: Certificate): Checked {
    var key := c.key;
    if key !in env.secrets then Checked(NotResolved(key), Some(BadCertificate))
    else
      var secret := env.secrets[key];
      if !(key in env.granted || key.namespace == env.namespace) then Checked(NotResolved(key), Some(NotPermitted))
      else if !secret.isTls || secret.data.None? then Checked(NotResolved(key), Some(BadCertificate))
      else
        match (secret.data.value.privateKey, secret.data.value.certificate)
        case (Some(pk), Some(cert)) =>
          if cert in env.certificates && pk in env.privateKeys then
            if key.namespace == env.namespace then Checked(ResolvedSameSpace(key, cert, pk), None)
            else Checked(ResolvedCrossSpace(key, cert, pk), None)
          else Checked(Invalid(key), Some(BadCertificate))
        case _ => Checked(Invalid(key), Some(BadCertificate))
  }

  /** The failure of the last failing certificate. */
  function LastFailure(env: Lookup, cs: seq<Certificate>): Option<Failure> {
    if cs == [] then None
    else
      var last := CheckCertificate(env, cs[|cs| - 1]).failure;
      if last.Some? then last else LastFailure(env, cs[..|cs| - 1])
  }

  function SupportedKinds(c: Condition): seq<string> {
    match c
    case Refs(Resolved(kinds)) => kinds
    case Refs(ResolvedWithNotAllowedRoutes(kinds)) => kinds
    case Refs(InvalidCertificates(kinds)) => kinds
    case _ => APPROVED_ROUTES
  }

  function Supported(cs: Conditions): seq<string> {
    if 0 in cs then SupportedKinds(cs[0]) else []
  }

  function FailureCondition(f: Failure, kinds: seq<string>): Condition {
    match f
    case BadCertificate => Refs(InvalidCertificates(kinds))
    case NotPermitted => Refs(RefNotPermitted(kinds))
  }

  function Overwritten(cs: Conditions, f: Option<Failure>, kinds: seq<string>): Conditions {
    if f.None? then cs else Replace(cs, FailureCondition(f.value, kinds))
  }

  /** A later failure takes the place of an earlier one. */
  lemma {:induction false} OverwrittenAgain(cs: Conditions, f: Option<Failure>, next: Failure, kinds: seq<string>)
    ensures Replace(Overwritten(cs, f, kinds), FailureCondition(next, kinds)) == Overwritten(cs, Some(next), kinds)
  {
  }

  predicate Terminates(l: Listener) {
    (l.protocol.Https? || l.protocol.Tls?) && l.tls.Some? && l.tls.value.Terminate?
  }

  function ValidateTls(env: Lookup, l: Listener): Listener {
    if !Terminates(l) then l
    else
      var cs := l.tls.value.certificates;
      var checked := seq(|cs|, i requires 0 <= i < |cs| => CheckCertificate(env, cs[i]).certificate);
      var failure := LastFailure(env, cs);
      l.(tls := Some(Terminate(checked)),
         conditions := Overwritten(l.conditions, failure, Supported(l.conditions)))
  }

  // ---------------------------------------------------------------------------------------------
  // Route attachment
  // ---------------------------------------------------------------------------------------------

  ghost predicate IsLeast(keys: set<ResourceKey>, k: ResourceKey) {
    k in keys && forall j :: j in keys ==> !CompareKey(k, j).Greater?
  }

  lemma {:induction false} LeastExists(keys: set<ResourceKey>)
    requires keys != {}
    ensures exists k :: IsLeast(keys, k)
  {
    var x :| x in keys;
    var rest := keys - {x};
    KeyLaws(x, x, x);
    if rest == {} {
      assert keys == {x};
      assert IsLeast(keys, x);
    } else {
      LeastExists(rest);
      var k :| IsLeast(rest, k);
      var least := if CompareKey(x, k).Less? then x else k;
      KeyLaws(x, k, k);
      forall j | j in keys ensures !CompareKey(least, j).Greater? {
        KeyLaws(x, k, j);
      }
      assert IsLeast(keys, least);
    }
  }

  ghost function Least(keys: set<ResourceKey>): (k: ResourceKey)
    requires keys != {}
    ensures IsLeast(keys, k)
  {
    LeastExists(keys);
    var k :| IsLeast(keys, k);
    k
  }

  lemma {:induction false} LeastUnique(keys: set<ResourceKey>, j: ResourceKey, k: ResourceKey)
    requires IsLeast(keys, j) && IsLeast(keys, k)
    ensures j == k
  {
    KeyLaws(j, k, k);
  }

  /** The least unresolved route by key was not permitted to use its backend. */
  ghost predicate FirstNotPermitted(unresolved: Routes) {
    unresolved != map[] && unresolved[Least(unresolved.Keys)] == RouteNotResolved(ReferenceNotPermitted)
  }

  ghost function UpdateRoutes(l: Listener, resolved: Routes, unresolved: Routes): Listener {
    l.(conditions := if FirstNotPermitted(unresolved) then Replace(l.conditions, Refs(InvalidBackend(APPROVED_ROUTES)))
                     else l.conditions,
       attached := |unresolved| + |resolved|,
       resolved := resolved, unresolved := unresolved)
  }

  // ---------------------------------------------------------------------------------------------
  // Adjustment and publication
  // ---------------------------------------------------------------------------------------------

  function AdjustRefs(cs: Conditions): Conditions {
    if 0 !in cs || !cs[0].Refs? then cs
    else
      match cs[0].refs
      case Resolved(_) => Replace(Replace(cs, Accepted), Programmed)
      case ResolvedWithNotAllowedRoutes(_) => Replace(Replace(cs, Accepted), Programmed)
      case InvalidBackend(_) => Replace(Replace(cs, Accepted), Programmed)
      case InvalidAllowedRoutes => Replace(Insert(cs, NotProgrammed), NotAccepted)
      case RefNotPermitted(_) => Replace(Insert(cs, NotProgrammed), NotAccepted)
      case InvalidCertificates(_) => Replace(Remove(cs, Accepted), NotProgrammed)
  }

  function Adjust(l: Listener): Listener {
    var cs := AdjustRefs(l.conditions);
    l.(conditions :=
         if 3 in cs then
           Remove(if l.resolved == map[] then Replace(Replace(cs, NotProgrammed), NotAccepted) else cs,
                  Refs(InvalidAllowedRoutes))
         else cs)
  }

  datatype Type = ResolvedRefsType | AcceptedType | ProgrammedType

  datatype Published = Published(type_: Type, status: bool, reason: string)

  function ResolvedType(c: Condition): Published {
    match c
    case Refs(InvalidAllowedRoutes) => Published(ResolvedRefsType, false, "InvalidRouteKinds")
    case Refs(ResolvedWithNotAllowedRoutes(_)) => Published(ResolvedRefsType, false, "InvalidRouteKinds")
    case Refs(InvalidBackend(_)) => Published(ResolvedRefsType, true, "InvalidRouteKinds")
    case Refs(Resolved(_)) => Published(ResolvedRefsType, true, "ResolvedRefs")
    case Refs(InvalidCertificates(_)) => Published(ResolvedRefsType, false, "InvalidCertificateRef")
    case Refs(RefNotPermitted(_)) => Published(ResolvedRefsType, false, "RefNotPermitted")
    case UnresolvedRouteRefs => Published(ResolvedRefsType, false, "ResolvedRefs")
    case Accepted => Published(AcceptedType, true, "Accepted")
    case NotAccepted => Published(AcceptedType, false, "Accepted")
    case Programmed => Published(ProgrammedType, true, "Programmed")
    case NotProgrammed => Published(ProgrammedType, false, "Programmed")
  }

  function Retain(ps: seq<Published>, t: Type): seq<Published> {
    if ps == [] then []
    else
      var n := |ps| - 1;
      Retain(ps[..n], t) + (if ps[n].type_ == t then [] else [ps[n]])
  }

  lemma {:induction false} RetainIn(ps: seq<Published>, t: Type, p: Published)
    ensures p in Retain(ps, t) <==> p in ps && p.type_ != t
  {
    if ps != [] {
      var n := |ps| - 1;
      assert ps == ps[..n] + [ps[n]];
      RetainIn(ps[..n], t, p);
    }
  }

  /** The status list after the conditions of classes below `upTo` were visited in order. */
  function PublishedUpTo(cs: Conditions, upTo: nat): seq<Published> {
    if upTo == 0 then []
    else
      var before := PublishedUpTo(cs, upTo - 1);
      if upTo - 1 in cs then
        var p := ResolvedType(cs[upTo - 1]);
        Retain(before, p.type_) + [p]
      else before
  }

  /** Whether a condition sets the published supported kinds. */
  predicate TellsKinds(c: Condition) {
    c.UnresolvedRouteRefs? || (c.Refs? && !c.refs.InvalidAllowedRoutes?)
  }

  /** The supported kinds after the conditions of classes below `upTo` were visited. */
  function KindsUpTo(cs: Conditions, upTo: nat): Option<seq<string>> {
    if upTo == 0 then None
    else if upTo - 1 in cs && TellsKinds(cs[upTo - 1]) then Some(SupportedKinds(cs[upTo - 1]))
    else KindsUpTo(cs, upTo - 1)
  }

  function PublishedKinds(cs: Conditions): Option<seq<string>> {
    KindsUpTo(cs, 4)
  }

  /** Classes run from 0 to 3. */
  function Publish(cs: Conditions): seq<Published> {
    PublishedUpTo(cs, 4)
  }

  // ---------------------------------------------------------------------------------------------
  // Properties of the stages
  // ---------------------------------------------------------------------------------------------

  /** The starting condition is of the ResolvedRefs class, keeps only approved kinds, and is invalid
      exactly when kinds are listed and none of them is approved. */
  lemma {:induction false} AllowedRoutesOutcome(protocol: Protocol, kinds: Option<seq<string>>)
    ensures var c := AllowedRoutes(protocol, kinds);
            && c.Refs? && (c.refs.Resolved? || c.refs.ResolvedWithNotAllowedRoutes? || c.refs.InvalidAllowedRoutes?)
            && (c.refs.InvalidAllowedRoutes? <==>
                kinds.Some? && kinds.value != [] && forall k :: k in kinds.value ==> k !in APPROVED_ROUTES)
            && (c.refs.Resolved? <==> kinds.None? || forall k :: k in kinds.value ==> k in APPROVED_ROUTES)
            && forall k :: k in SupportedKinds(c) ==> k in APPROVED_ROUTES
  {
    if kinds.Some? && kinds.value != [] {
      var ks := kinds.value;
      assert ks[0] in ks;
      if Approved(ks) != [] {
        assert Approved(ks)[0] in Approved(ks);
      }
    }
  }

  predicate EndsUnresolved(c: Certificate) {
    c.NotResolved? || c.Invalid?
  }

  /** A certificate is resolved exactly when its secret is known, usable from the gateway, of TLS
      type, and holds a valid certificate and key; and a failure is recorded exactly otherwise. */
  lemma {:induction false} CertificateOutcome(env: Lookup, c: Certificate)
    ensures var r := CheckCertificate(env, c);
            && r.certificate.key == c.key
            && (r.failure.Some? <==> EndsUnresolved(r.certificate))
            && (r.failure == Some(NotPermitted) <==>
                c.key in env.secrets && c.key !in env.granted && c.key.namespace != env.namespace)
            && (r.failure.None? <==>
                && c.key in env.secrets && (c.key in env.granted || c.key.namespace == env.namespace)
                && var s := env.secrets[c.key];
                   && s.isTls && s.data.Some? && s.data.value.certificate.Some? && s.data.value.privateKey.Some?
                   && s.data.value.certificate.value in env.certificates
                   && s.data.value.privateKey.value in env.privateKeys)
            && (r.certificate.ResolvedSameSpace? ==> c.key.namespace == env.namespace)
            && (r.certificate.ResolvedCrossSpace? ==> c.key.namespace != env.namespace && c.key in env.granted)
  {
  }

  /** A certificate that can be used carries the secret's certificate and key, and whether the secret is of
      the gateway's namespace; one whose secret can be read, but does not parse, is invalid. */
  lemma {:induction false} CertificateContent(env: Lookup, c: Certificate)
    ensures var r := CheckCertificate(env, c);
            && (r.failure.None? ==>
                  var data := env.secrets[c.key].data.value;
                  r.certificate == if c.key.namespace == env.namespace
                                   then ResolvedSameSpace(c.key, data.certificate.value, data.privateKey.value)
                                   else ResolvedCrossSpace(c.key, data.certificate.value, data.privateKey.value))
            && (r.certificate.Invalid? <==>
                r.failure.Some? && c.key in env.secrets && (c.key in env.granted || c.key.namespace == env.namespace)
                && env.secrets[c.key].isTls && env.secrets[c.key].data.Some?)
  {
    CertificateOutcome(env, c);
  }

  lemma {:induction false} LastFailureIff(env: Lookup, cs: seq<Certificate>)
    ensures LastFailure(env, cs).Some? <==>
            exists i :: 0 <= i < |cs| && EndsUnresolved(CheckCertificate(env, cs[i]).certificate)
    ensures LastFailure(env, cs).Some? ==>
            exists i :: 0 <= i < |cs| && CheckCertificate(env, cs[i]).failure == LastFailure(env, cs)
                        && forall j :: i < j < |cs| ==> !EndsUnresolved(CheckCertificate(env, cs[j]).certificate)
  {
    if cs != [] {
      var n := |cs| - 1;
      LastFailureIff(env, cs[..n]);
      CertificateOutcome(env, cs[n]);
      if CheckCertificate(env, cs[n]).failure.None? && LastFailure(env, cs).Some? {
        var i :| 0 <= i < n && CheckCertificate(env, cs[..n][i]).failure == LastFailure(env, cs)
                 && forall j :: i < j < n ==> !EndsUnresolved(CheckCertificate(env, cs[..n][j]).certificate);
        assert forall j :: i < j < n ==> cs[..n][j] == cs[j];
      }
    }
  }

  /** For any certificate list of a terminating listener: the validator leaves it with
      `InvalidCertificates` or `RefNotPermitted` exactly when some certificate ends unresolved, and
      which of the two is fixed by the last failing certificate. Otherwise nothing changes. */
  lemma {:induction false} TlsOutcome(env: Lookup, l: Listener)
    requires Terminates(l)
    requires 0 in l.conditions && l.conditions[0].Refs?
    requires !l.conditions[0].refs.InvalidCertificates? && !l.conditions[0].refs.RefNotPermitted?
    ensures var l' := ValidateTls(env, l);
            var refs := l'.conditions[0].refs;
            && ((refs.InvalidCertificates? || refs.RefNotPermitted?) <==>
                exists c :: c in l'.tls.value.certificates && EndsUnresolved(c))
            && (refs.RefNotPermitted? <==> LastFailure(env, l.tls.value.certificates) == Some(NotPermitted))
            && (refs.InvalidCertificates? <==> LastFailure(env, l.tls.value.certificates) == Some(BadCertificate))
            && ((forall c :: c in l'.tls.value.certificates ==> !EndsUnresolved(c)) ==> l'.conditions == l.conditions)
  {
    var cs := l.tls.value.certificates;
    var out := ValidateTls(env, l).tls.value.certificates;
    LastFailureIff(env, cs);
    assert forall i :: 0 <= i < |cs| ==> out[i] == CheckCertificate(env, cs[i]).certificate;
    if i :| 0 <= i < |cs| && EndsUnresolved(CheckCertificate(env, cs[i]).certificate) {
      assert out[i] in out;
    }
  }

  ghost predicate OnePerType(ps: seq<Published>) {
    forall i, j :: 0 <= i < j < |ps| ==> ps[i].type_ != ps[j].type_
  }

  lemma {:induction false} RetainOnePerType(ps: seq<Published>, t: Type)
    requires OnePerType(ps)
    ensures OnePerType(Retain(ps, t))
  {
    if ps != [] {
      var n := |ps| - 1;
      var init, last := ps[..n], ps[n];
      RetainOnePerType(init, t);
      if last.type_ != t {
        forall q | q in Retain(init, t) ensures q.type_ != last.type_ {
          RetainIn(init, t, q);
          var i :| 0 <= i < n && init[i] == q;
          assert ps[i] == q;
        }
        AppendOnePerType(Retain(init, t), last);
      }
    }
  }

  lemma {:induction false} AppendOnePerType(ps: seq<Published>, p: Published)
    requires OnePerType(ps) && forall q :: q in ps ==> q.type_ != p.type_
    ensures OnePerType(ps + [p])
  {
    forall i | 0 <= i < |ps| ensures ps[i].type_ != p.type_ {
      assert ps[i] in ps;
    }
  }

  lemma {:induction false} PublishedOnePerType(cs: Conditions, upTo: nat)
    ensures OnePerType(PublishedUpTo(cs, upTo))
  {
    if upTo > 0 {
      PublishedOnePerType(cs, upTo - 1);
      if upTo - 1 in cs {
        var p := ResolvedType(cs[upTo - 1]);
        RetainOnePerType(PublishedUpTo(cs, upTo - 1), p.type_);
        forall q | q in Retain(PublishedUpTo(cs, upTo - 1), p.type_) ensures q.type_ != p.type_ {
          RetainIn(PublishedUpTo(cs, upTo - 1), p.type_, q);
        }
        AppendOnePerType(Retain(PublishedUpTo(cs, upTo - 1), p.type_), p);
      }
    }
  }

  /** The condition of class `k` is the last one of its type below `upTo`, and is published as `p`. */
  ghost predicate Speaks(cs: Conditions, k: nat, upTo: nat, p: Published) {
    && k < upTo && k in cs && p == ResolvedType(cs[k])
    && forall j: nat :: k < j < upTo && j in cs ==> ResolvedType(cs[j]).type_ != p.type_
  }

  lemma {:induction false} PublishedIffSpeaks(cs: Conditions, upTo: nat, p: Published)
    ensures p in PublishedUpTo(cs, upTo) <==> exists k: nat :: Speaks(cs, k, upTo, p)
  {
    if upTo > 0 {
      var top := upTo - 1;
      PublishedIffSpeaks(cs, top, p);
      if top in cs {
        RetainIn(PublishedUpTo(cs, top), ResolvedType(cs[top]).type_, p);
      }
      if k: nat :| Speaks(cs, k, upTo, p) {
        assert k < top ==> Speaks(cs, k, top, p);
      }
      if p in PublishedUpTo(cs, upTo) {
        if top in cs && p == ResolvedType(cs[top]) {
          assert Speaks(cs, top, upTo, p);
        } else {
          var k: nat :| Speaks(cs, k, top, p);
          assert Speaks(cs, k, upTo, p);
        }
      }
    }
  }

  /** For any condition set the published status holds at most one condition of each type, and it is
      the one of the highest class. */
  lemma {:induction false} PublishOutcome(cs: Conditions, p: Published)
    ensures OnePerType(Publish(cs))
    ensures p in Publish(cs) <==> exists k: nat :: Speaks(cs, k, 4, p)
  {
    PublishedOnePerType(cs, 4);
    PublishedIffSpeaks(cs, 4, p);
  }

  // ---------------------------------------------------------------------------------------------
  // The whole pipeline
  // ---------------------------------------------------------------------------------------------

  /** What a gateway specifies about a listener. */
  datatype Spec = Spec(protocol: Protocol, tls: Option<TlsType>, kinds: Option<seq<string>>)

  /** Route attachment runs only for listeners that some route matched. */
  datatype Attachment = NoRoutes | Attach(resolved: Routes, unresolved: Routes)

  function Created(spec: Spec): Listener {
    Create(spec.protocol, spec.tls, spec.kinds)
  }

  ghost function Attached(l: Listener, a: Attachment): Listener {
    match a
    case NoRoutes => l
    case Attach(resolved, unresolved) => UpdateRoutes(l, resolved, unresolved)
  }

  ghost function Pipeline(env: Lookup, spec: Spec, a: Attachment): Listener {
    Adjust(Attached(ValidateTls(env, Created(spec)), a))
  }

  ghost predicate MasksRefs(a: Attachment) {
    a.Attach? && FirstNotPermitted(a.unresolved)
  }

  /** The failure the TLS validator reports for a listener, if any. */
  function TlsFailure(env: Lookup, spec: Spec): Option<Failure> {
    if Terminates(Created(spec)) then LastFailure(env, spec.tls.value.certificates) else None
  }

  /** The ResolvedRefs condition that decides: a least unresolved route that is not permitted
      overrides a failing certificate, which overrides the allowed kinds. */
  ghost function DecidingRefs(env: Lookup, spec: Spec, a: Attachment): Condition {
    var start := AllowedRoutes(spec.protocol, spec.kinds);
    if MasksRefs(a) then Refs(InvalidBackend(APPROVED_ROUTES))
    else if TlsFailure(env, spec).Some? then FailureCondition(TlsFailure(env, spec).value, SupportedKinds(start))
    else start
  }

  /** The conditions that a ResolvedRefs condition leads to. */
  function FinalConditions(c: Condition): Conditions
    requires c.Refs?
  {
    match c.refs
    case InvalidAllowedRoutes => map[0 := c, 1 := NotAccepted, 2 := NotProgrammed]
    case RefNotPermitted(_) => map[0 := c, 1 := NotAccepted, 2 := NotProgrammed]
    case InvalidCertificates(_) => map[0 := c, 2 := NotProgrammed]
    case _ => map[0 := c, 1 := Accepted, 2 := Programmed]
  }

  lemma {:induction false} BeforeAdjustment(env: Lookup, spec: Spec, a: Attachment)
    ensures DecidingRefs(env, spec, a).Refs?
    ensures Attached(ValidateTls(env, Created(spec)), a).conditions == map[0 := DecidingRefs(env, spec, a)]
  {
    AllowedRoutesOutcome(spec.protocol, spec.kinds);
    var start := AllowedRoutes(spec.protocol, spec.kinds);
    var l := ValidateTls(env, Created(spec));
    assert Created(spec).conditions == map[0 := start];
    assert l.conditions == map[0 := if TlsFailure(env, spec).Some?
                                    then FailureCondition(TlsFailure(env, spec).value, SupportedKinds(start))
                                    else start];
  }

  lemma {:induction false} AdjustedSingle(l: Listener, c: Condition)
    requires c.Refs? && l.conditions == map[0 := c]
    ensures Adjust(l) == l.(conditions := FinalConditions(c))
  {
    assert AdjustRefs(l.conditions) == FinalConditions(c);
  }

  /** Noted unresolved route references are published last, as ResolvedRefs being false, in place of any other
      such entry. */
  lemma {:induction false} UnresolvedRefsPublished(cs: Conditions)
    requires ByClass(cs) && 3 in cs
    ensures var ps := Publish(cs);
            && ps != [] && ps[|ps| - 1] == Published(ResolvedRefsType, false, "ResolvedRefs")
            && forall i :: 0 <= i < |ps| - 1 ==> ps[i].type_ != ResolvedRefsType
  {
    assert Class(cs[3]) == 3;
    var before := PublishedUpTo(cs, 3);
    forall i | 0 <= i < |Retain(before, ResolvedRefsType)|
      ensures Retain(before, ResolvedRefsType)[i].type_ != ResolvedRefsType
    {
      RetainIn(before, ResolvedRefsType, Retain(before, ResolvedRefsType)[i]);
    }
  }

  predicate IsGood(cs: Conditions) {
    0 in cs && cs[0].Refs? && (cs[0].refs.Resolved? || cs[0].refs.ResolvedWithNotAllowedRoutes?
                               || cs[0].refs.InvalidBackend?)
  }

  predicate IsBad(cs: Conditions) {
    0 in cs && cs[0].Refs? && (cs[0].refs.InvalidAllowedRoutes? || cs[0].refs.RefNotPermitted?)
  }

  predicate HasBadCertificate(cs: Conditions) {
    0 in cs && cs[0].Refs? && cs[0].refs.InvalidCertificates?
  }

  lemma {:induction false} AdjustRefsOutcome(cs: Conditions)
    requires ByClass(cs)
    ensures var out := AdjustRefs(cs);
            && ByClass(out) && At(out, 0) == At(cs, 0) && At(out, 3) == At(cs, 3)
            && At(out, 1) == (if IsBad(cs) then Some(NotAccepted) else if IsGood(cs) then Some(Accepted)
                              else if HasBadCertificate(cs) then None else At(cs, 1))
            && At(out, 2) == (if HasBadCertificate(cs) || (IsBad(cs) && 2 !in cs) then Some(NotProgrammed)
                              else if IsGood(cs) then Some(Programmed) else At(cs, 2))
  {
  }

  /** What the adjustment does to any condition set, class by class. A ResolvedRefs condition decides: a good
      one sets both others; a bad one takes acceptance back, though it leaves a listener programmed that was;
      a bad certificate drops acceptance and programming. Where unresolved route references are noted, it is
      dropped itself, and without resolved routes both others are taken back. */
  lemma {:induction false} AdjustOutcome(l: Listener)
    requires ByClass(l.conditions)
    ensures var cs, out := l.conditions, Adjust(l).conditions;
            var nothing := 3 in cs && l.resolved == map[];
            && ByClass(out) && Adjust(l) == l.(conditions := out)
            && At(out, 0) == (if 3 in cs then None else At(cs, 0))
            && At(out, 1) == (if nothing || IsBad(cs) then Some(NotAccepted) else if IsGood(cs) then Some(Accepted)
                              else if HasBadCertificate(cs) then None else At(cs, 1))
            && At(out, 2) == (if nothing || HasBadCertificate(cs) || (IsBad(cs) && 2 !in cs) then Some(NotProgrammed)
                              else if IsGood(cs) then Some(Programmed) else At(cs, 2))
            && At(out, 3) == At(cs, 3)
  {
    AdjustRefsOutcome(l.conditions);
    assert 3 in AdjustRefs(l.conditions) <==> 3 in l.conditions;
  }

  function At(cs: Conditions, k: nat): Option<Condition> {
    if k in cs then Some(cs[k]) else None
  }

  /** Through the pipeline each listener holds exactly one ResolvedRefs condition and never
      `UnresolvedRouteRefs` (class 3), and that one condition decides acceptance and programming. */
  lemma {:induction false} PipelineOutcome(env: Lookup, spec: Spec, a: Attachment)
    ensures DecidingRefs(env, spec, a).Refs?
    ensures Pipeline(env, spec, a).conditions == FinalConditions(DecidingRefs(env, spec, a))
    ensures ByClass(Pipeline(env, spec, a).conditions)
    ensures 0 in Pipeline(env, spec, a).conditions && 3 !in Pipeline(env, spec, a).conditions
  {
    BeforeAdjustment(env, spec, a);
    AdjustedSingle(Attached(ValidateTls(env, Created(spec)), a), DecidingRefs(env, spec, a));
    FinalByClass(DecidingRefs(env, spec, a));
  }

  lemma {:induction false} FinalByClass(c: Condition)
    requires c.Refs?
    ensures ByClass(FinalConditions(c)) && 0 in FinalConditions(c) && 3 !in FinalConditions(c)
  {
  }

  /** The attached-route count is the number of resolved and unresolved routes, so the accounting
      check of the adjustment never fires. */
  lemma {:induction false} PipelineCounts(env: Lookup, spec: Spec, a: Attachment)
    ensures var l := Pipeline(env, spec, a); l.attached == |l.resolved| + |l.unresolved|
  {
    var l := ValidateTls(env, Created(spec));
    assert l.attached == 0 && l.resolved == map[] && l.unresolved == map[];
  }

  predicate SomeCertificateEndsUnresolved(env: Lookup, spec: Spec) {
    && Terminates(Created(spec))
    && exists i :: 0 <= i < |spec.tls.value.certificates|
                   && EndsUnresolved(CheckCertificate(env, spec.tls.value.certificates[i]).certificate)
  }

  predicate NoKindApproved(spec: Spec) {
    spec.kinds.Some? && spec.kinds.value != [] && forall k :: k in spec.kinds.value ==> k !in APPROVED_ROUTES
  }

  /** A listener ends programmed exactly when its least unresolved route is not permitted to use its
      backend, or no certificate ends unresolved and not all listed kinds are unknown. In particular
      a failing certificate leads to `NotProgrammed` unless such a route masks it. */
  lemma {:induction false} ProgrammedIff(env: Lookup, spec: Spec, a: Attachment)
    ensures var cs := Pipeline(env, spec, a).conditions;
            && 2 in cs && (cs[2] == Programmed || cs[2] == NotProgrammed)
            && (cs[2] == Programmed <==>
                MasksRefs(a) || (!SomeCertificateEndsUnresolved(env, spec) && !NoKindApproved(spec)))
  {
    PipelineOutcome(env, spec, a);
    AllowedRoutesOutcome(spec.protocol, spec.kinds);
    if Terminates(Created(spec)) {
      LastFailureIff(env, spec.tls.value.certificates);
    }
  }

  /** A listener whose only certificate is missing is programmed if its only unresolved route is not
      permitted to use its backend, and not programmed without that route. */
  lemma {:induction false} MaskedCertificateProgrammed(env: Lookup, key: ResourceKey, route: ResourceKey)
    requires key !in env.secrets
    ensures var spec := Spec(Https, Some(Terminate([NotResolved(key)])), None);
            var masking := Attach(map[], map[route := RouteNotResolved(ReferenceNotPermitted)]);
            && 2 in Pipeline(env, spec, masking).conditions && 2 in Pipeline(env, spec, NoRoutes).conditions
            && Pipeline(env, spec, masking).conditions[2] == Programmed
            && Pipeline(env, spec, NoRoutes).conditions[2] == NotProgrammed
  {
    var spec := Spec(Https, Some(Terminate([NotResolved(key)])), None);
    var masking := Attach(map[], map[route := RouteNotResolved(ReferenceNotPermitted)]);
    assert route in masking.unresolved.Keys && Least(masking.unresolved.Keys) in masking.unresolved.Keys;
    assert spec.tls.value.certificates[0] == NotResolved(key);
    ProgrammedIff(env, spec, masking);
    ProgrammedIff(env, spec, NoRoutes);
  }

  /** The conditions that a deciding ResolvedRefs condition publishes, in order. */
  function StatusOf(c: Condition): seq<Published>
    requires c.Refs?
  {
    match c.refs
    case InvalidCertificates(_) => [ResolvedType(c), ResolvedType(NotProgrammed)]
    case InvalidAllowedRoutes => [ResolvedType(c), ResolvedType(NotAccepted), ResolvedType(NotProgrammed)]
    case RefNotPermitted(_) => [ResolvedType(c), ResolvedType(NotAccepted), ResolvedType(NotProgrammed)]
    case _ => [ResolvedType(c), ResolvedType(Accepted), ResolvedType(Programmed)]
  }

  lemma {:induction false} FinalPublished(c: Condition)
    requires c.Refs?
    ensures Publish(FinalConditions(c)) == StatusOf(c)
  {
    var cs := FinalConditions(c);
    if 1 in cs {
      PublishThree(cs, ResolvedType(cs[0]), ResolvedType(cs[1]), ResolvedType(cs[2]));
    } else {
      PublishTwo(cs, ResolvedType(cs[0]), ResolvedType(cs[2]));
    }
  }

  lemma {:induction false} PublishThree(cs: Conditions, p: Published, q: Published, r: Published)
    requires 0 in cs && 1 in cs && 2 in cs && 3 !in cs
    requires p == ResolvedType(cs[0]) && q == ResolvedType(cs[1]) && r == ResolvedType(cs[2])
    requires p.type_ != q.type_ && p.type_ != r.type_ && q.type_ != r.type_
    ensures Publish(cs) == [p, q, r]
  {
    VisitClass(cs, 0, []);
    VisitClass(cs, 1, [p]);
    VisitClass(cs, 2, [p, q]);
    VisitClass(cs, 3, [p, q, r]);
  }

  lemma {:induction false} PublishTwo(cs: Conditions, p: Published, r: Published)
    requires 0 in cs && 1 !in cs && 2 in cs && 3 !in cs
    requires p == ResolvedType(cs[0]) && r == ResolvedType(cs[2]) && p.type_ != r.type_
    ensures Publish(cs) == [p, r]
  {
    VisitClass(cs, 0, []);
    VisitClass(cs, 1, [p]);
    VisitClass(cs, 2, [p]);
    VisitClass(cs, 3, [p, r]);
  }

  /** Visiting a class whose type has not been published yet appends its condition. */
  lemma {:induction false} VisitClass(cs: Conditions, k: nat, before: seq<Published>)
    requires PublishedUpTo(cs, k) == before
    requires k in cs ==> forall i :: 0 <= i < |before| ==> before[i].type_ != ResolvedType(cs[k]).type_
    ensures PublishedUpTo(cs, k + 1) == if k in cs then before + [ResolvedType(cs[k])] else before
  {
    if k in cs {
      RetainsOthers(before, ResolvedType(cs[k]).type_);
    }
  }

  lemma {:induction false} RetainsOthers(ps: seq<Published>, t: Type)
    requires forall i :: 0 <= i < |ps| ==> ps[i].type_ != t
    ensures Retain(ps, t) == ps
  {
    if ps != [] {
      var n := |ps| - 1;
      RetainsOthers(ps[..n], t);
      assert ps == ps[..n] + [ps[n]];
    }
  }

  /** What a pipeline run publishes, in order: the deciding ResolvedRefs condition, then acceptance unless
      a certificate failed, then programming; with the kinds the condition supports, unless no listed
      kind is approved. */
  lemma {:induction false} PipelinePublishes(env: Lookup, spec: Spec, a: Attachment)
    ensures var c, cs := DecidingRefs(env, spec, a), Pipeline(env, spec, a).conditions;
            && c.Refs? && Publish(cs) == StatusOf(c)
            && PublishedKinds(cs) == (if c.refs.InvalidAllowedRoutes? then None else Some(SupportedKinds(c)))
  {
    PipelineOutcome(env, spec, a);
    FinalPublished(DecidingRefs(env, spec, a));
    FinalKinds(DecidingRefs(env, spec, a));
  }

  lemma {:induction false} FinalKinds(c: Condition)
    requires c.Refs?
    ensures PublishedKinds(FinalConditions(c)) == if c.refs.InvalidAllowedRoutes? then None else Some(SupportedKinds(c))
  {
    var cs := FinalConditions(c);
    assert KindsUpTo(cs, 0) == None;
    assert KindsUpTo(cs, 1) == if TellsKinds(c) then Some(SupportedKinds(c)) else None;
    assert KindsUpTo(cs, 2) == KindsUpTo(cs, 1);
    assert KindsUpTo(cs, 3) == KindsUpTo(cs, 2);
  }

  // ---------------------------------------------------------------------------------------------
  // The published status, from the specification, the certificates and the routes
  // ---------------------------------------------------------------------------------------------

  /** The least unresolved route by key may not use its backend. */
  ghost predicate LeastRouteRefused(a: Attachment) {
    && a.Attach?
    && exists k :: IsLeast(a.unresolved.Keys, k) && a.unresolved[k] == RouteNotResolved(ReferenceNotPermitted)
  }

  /** A terminating listener's certificates; no others are looked at. */
  function Certificates(spec: Spec): seq<Certificate> {
    if (spec.protocol.Https? || spec.protocol.Tls?) && spec.tls.Some? && spec.tls.value.Terminate?
    then spec.tls.value.certificates
    else []
  }

  /** The secret is known, of the gateway's namespace or granted to it. */
  predicate Permitted(env: Lookup, c: Certificate) {
    c.key in env.granted || c.key.namespace == env.namespace
  }

  /** The certificate can be used: its secret is known, permitted, of TLS type, and both parts parse. */
  predicate Good(env: Lookup, c: Certificate) {
    && c.key in env.secrets && Permitted(env, c)
    && var s := env.secrets[c.key];
       && s.isTls && s.data.Some? && s.data.value.certificate.Some? && s.data.value.privateKey.Some?
       && s.data.value.certificate.value in env.certificates && s.data.value.privateKey.value in env.privateKeys
  }

  /** The certificate at `i` is the last one that cannot be used. */
  ghost predicate LastBad(env: Lookup, cs: seq<Certificate>, i: nat) {
    i < |cs| && !Good(env, cs[i]) && forall j :: i < j < |cs| ==> Good(env, cs[j])
  }

  /** A certificate cannot be used, and the last such one is refused: known, but not permitted. */
  ghost predicate LastBadRefused(env: Lookup, cs: seq<Certificate>) {
    exists i: nat :: LastBad(env, cs, i) && cs[i].key in env.secrets && !Permitted(env, cs[i])
  }

  ghost predicate AllGood(env: Lookup, cs: seq<Certificate>) {
    forall c :: c in cs ==> Good(env, c)
  }

  lemma {:induction false} LastBadSnoc(env: Lookup, cs: seq<Certificate>, i: nat)
    requires cs != []
    ensures var n := |cs| - 1;
            LastBad(env, cs, i) <==> if i == n then !Good(env, cs[n]) else LastBad(env, cs[..n], i) && Good(env, cs[n])
  {
    assert forall j :: 0 <= j < |cs| - 1 ==> cs[..|cs| - 1][j] == cs[j];
  }

  lemma {:induction false} RefusedSnoc(env: Lookup, cs: seq<Certificate>)
    requires cs != []
    ensures var n := |cs| - 1;
            LastBadRefused(env, cs) <==>
            if Good(env, cs[n]) then LastBadRefused(env, cs[..n])
            else cs[n].key in env.secrets && !Permitted(env, cs[n])
  {
    var n := |cs| - 1;
    var init := cs[..n];
    LastBadSnoc(env, cs, n);
    if i: nat :| LastBad(env, cs, i) && cs[i].key in env.secrets && !Permitted(env, cs[i]) {
      LastBadSnoc(env, cs, i);
      assert i < n ==> init[i] == cs[i];
    }
    if i: nat :| LastBad(env, init, i) && init[i].key in env.secrets && !Permitted(env, init[i]) {
      LastBadSnoc(env, cs, i);
      assert init[i] == cs[i];
    }
  }

  lemma {:induction false} LastFailureIs(env: Lookup, cs: seq<Certificate>)
    ensures LastFailure(env, cs).None? <==> AllGood(env, cs)
    ensures LastFailure(env, cs) == Some(NotPermitted) <==> LastBadRefused(env, cs)
  {
    if cs != [] {
      var n := |cs| - 1;
      assert cs == cs[..n] + [cs[n]];
      LastFailureIs(env, cs[..n]);
      RefusedSnoc(env, cs);
      FailureOf(env, cs[n]);
    }
  }

  lemma {:induction false} FailureOf(env: Lookup, c: Certificate)
    ensures var failure := CheckCertificate(env, c).failure;
            && (failure.None? <==> Good(env, c))
            && (failure == Some(NotPermitted) <==> c.key in env.secrets && !Permitted(env, c))
  {
    CertificateOutcome(env, c);
  }

  /** What a listener's status depends on. */
  datatype Verdict = Masked | CertificateRefused | CertificateBad | NoKindKnown | SomeKindUnknown | Fine

  ghost function VerdictOf(env: Lookup, spec: Spec, a: Attachment): Verdict {
    if LeastRouteRefused(a) then Masked
    else if LastBadRefused(env, Certificates(spec)) then CertificateRefused
    else if !AllGood(env, Certificates(spec)) then CertificateBad
    else if spec.kinds.None? || forall k :: k in spec.kinds.value ==> k in {"GRPCRoute", "HTTPRoute", "TCPRoute"} then
      Fine
    else if exists k :: k in spec.kinds.value && k in {"GRPCRoute", "HTTPRoute", "TCPRoute"} then SomeKindUnknown
    else NoKindKnown
  }

  function ResolvedRefsStatus(v: Verdict): Published {
    match v
    case Fine => Published(ResolvedRefsType, true, "ResolvedRefs")
    case Masked => Published(ResolvedRefsType, true, "InvalidRouteKinds")
    case CertificateBad => Published(ResolvedRefsType, false, "InvalidCertificateRef")
    case CertificateRefused => Published(ResolvedRefsType, false, "RefNotPermitted")
    case _ => Published(ResolvedRefsType, false, "InvalidRouteKinds")
  }

  /** A listener is up unless its certificates or all its kinds are at fault. */
  predicate Up(v: Verdict) {
    v.Fine? || v.Masked? || v.SomeKindUnknown?
  }

  function StatusList(v: Verdict): seq<Published> {
    [ResolvedRefsStatus(v)]
    + (if v.CertificateBad? then [] else [Published(AcceptedType, Up(v), "Accepted")])
    + [Published(ProgrammedType, Up(v), "Programmed")]
  }

  /** The ResolvedRefs condition that a verdict stands for. */
  predicate StandsFor(v: Verdict, c: Condition) {
    && c.Refs?
    && (v.Masked? <==> c.refs.InvalidBackend?)
    && (v.CertificateRefused? <==> c.refs.RefNotPermitted?)
    && (v.CertificateBad? <==> c.refs.InvalidCertificates?)
    && (v.NoKindKnown? <==> c.refs.InvalidAllowedRoutes?)
    && (v.SomeKindUnknown? <==> c.refs.ResolvedWithNotAllowedRoutes?)
    && (v.Fine? <==> c.refs.Resolved?)
  }

  lemma {:induction false} StatusOfVerdict(v: Verdict, c: Condition)
    requires StandsFor(v, c)
    ensures StatusOf(c) == StatusList(v)
  {
  }

  lemma {:induction false} VerdictDecides(env: Lookup, spec: Spec, a: Attachment)
    ensures StandsFor(VerdictOf(env, spec, a), DecidingRefs(env, spec, a))
  {
    if a.Attach? && a.unresolved != map[] {
      forall k | IsLeast(a.unresolved.Keys, k) ensures k == Least(a.unresolved.Keys) {
        LeastUnique(a.unresolved.Keys, k, Least(a.unresolved.Keys));
      }
    }
    assert MasksRefs(a) <==> LeastRouteRefused(a);
    LastFailureIs(env, Certificates(spec));
    assert APPROVED_ROUTES == ["GRPCRoute", "HTTPRoute", "TCPRoute"];
    assert forall k: string :: k in APPROVED_ROUTES <==> k in {"GRPCRoute", "HTTPRoute", "TCPRoute"};
    AllowedRoutesOutcome(spec.protocol, spec.kinds);
  }

  /** The status that a pipeline run publishes, entry by entry: ResolvedRefs with the reason of the verdict;
      acceptance, unless a bad certificate decides; and programming. The last two are true exactly if the
      listener is up. */
  lemma {:induction false} PublishedStatus(env: Lookup, spec: Spec, a: Attachment)
    ensures Publish(Pipeline(env, spec, a).conditions) == StatusList(VerdictOf(env, spec, a))
  {
    VerdictDecides(env, spec, a);
    StatusOfVerdict(VerdictOf(env, spec, a), DecidingRefs(env, spec, a));
    PipelinePublishes(env, spec, a);
  }

  /** The kinds that a listener's specification lets it support. */
  ghost predicate SpecKind(spec: Spec, k: string) {
    if spec.kinds.Some? then k in spec.kinds.value && k in {"GRPCRoute", "HTTPRoute", "TCPRoute"}
    else (spec.protocol.Http? || spec.protocol.Https?) && k in {"GRPCRoute", "HTTPRoute"}
  }

  /** The supported kinds that are published: those of the specification; but all known kinds where a route or
      a refused certificate decides, or a bad certificate does and no listed kind is known; and none where
      only unknown kinds are listed. */
  lemma {:induction false} PublishedKindsOutcome(env: Lookup, spec: Spec, a: Attachment, k: string)
    ensures var v, kinds := VerdictOf(env, spec, a), PublishedKinds(Pipeline(env, spec, a).conditions);
            && (kinds.None? <==> v.NoKindKnown?)
            && (kinds.Some? ==>
                  (k in kinds.value <==>
                   if v.Masked? || v.CertificateRefused? || (v.CertificateBad? && NoKindApproved(spec))
                   then k in {"GRPCRoute", "HTTPRoute", "TCPRoute"}
                   else SpecKind(spec, k)))
  {
    VerdictDecides(env, spec, a);
    PipelinePublishes(env, spec, a);
    assert APPROVED_ROUTES == ["GRPCRoute", "HTTPRoute", "TCPRoute"];
    AllowedRoutesOutcome(spec.protocol, spec.kinds);
  }

  // ---------------------------------------------------------------------------------------------
  // The listener as the source has it
  // ---------------------------------------------------------------------------------------------

  class ListenerObject {
    const protocol: Protocol
    var tls: Option<TlsType>
    var conditions: Conditions
    var resolved: Routes
    var unresolved: Routes
    var attached: nat

    ghost function Abs(): Listener
      reads this
    {
      Listener(protocol, tls, conditions, resolved, unresolved, attached)
    }

    constructor (protocol: Protocol, tls: Option<TlsType>, kinds: Option<seq<string>>)
      ensures Abs() == Create(protocol, tls, kinds)
    {
      this.protocol, this.tls := protocol, tls;
      conditions := Replace(map[], AllowedRoutes(protocol, kinds));
      resolved, unresolved, attached := map[], map[], 0;
    }

    /** Visits the certificates in order; every failure overwrites the ResolvedRefs condition. */
    method ValidateCertificates(env: Lookup)
      modifies this
      ensures Abs() == ValidateTls(env, old(Abs()))
    {
      if !(protocol.Https? || protocol.Tls?) || tls.None? || tls.value.Passthrough? {
        return;
      }
      var updated := CheckCertificates(env, tls.value.certificates);
      tls := Some(Terminate(updated));
    }

    method CheckCertificates(env: Lookup, certificates: seq<Certificate>) returns (updated: seq<Certificate>)
      modifies this`conditions
      ensures conditions == Overwritten(old(conditions), LastFailure(env, certificates), Supported(old(conditions)))
      ensures updated == seq(|certificates|, i requires 0 <= i < |certificates| =>
                           CheckCertificate(env, certificates[i]).certificate)
    {
      var supported := Supported(conditions);
      updated := [];
      for i := 0 to |certificates|
        invariant |updated| == i
        invariant forall j :: 0 <= j < i ==> updated[j] == CheckCertificate(env, certificates[j]).certificate
        invariant conditions == Overwritten(old(conditions), LastFailure(env, certificates[..i]), supported)
      {
        assert certificates[..i + 1][..i] == certificates[..i];
        var checked := CheckCertificate(env, certificates[i]);
        updated := updated + [checked.certificate];
        if checked.failure.Some? {
          OverwrittenAgain(old(conditions), LastFailure(env, certificates[..i]), checked.failure.value, supported);
          conditions := Replace(conditions, FailureCondition(checked.failure.value, supported));
        }
      }
      assert certificates[..|certificates|] == certificates;
    }

    method LeastNotPermitted(routes: Routes) returns (masks: bool)
      ensures masks == FirstNotPermitted(routes)
    {
      if routes == map[] {
        return false;
      }
      var first := First(routes);
      LeastUnique(routes.Keys, first, Least(routes.Keys));
      masks := routes[first] == RouteNotResolved(ReferenceNotPermitted);
    }

    /** The least key of a route set. */
    method First(routes: Routes) returns (first: ResourceKey)
      requires routes != map[]
      ensures IsLeast(routes.Keys, first)
    {
      var todo := routes.Keys;
      var k :| k in todo;
      first := k;
      todo := todo - {k};
      KeyLaws(first, first, first);
      while todo != {}
        invariant todo <= routes.Keys && first in routes
        invariant forall j :: j in routes.Keys - todo ==> !CompareKey(first, j).Greater?
      {
        var next :| next in todo;
        KeyLaws(next, first, first);
        KeyLaws(next, next, next);
        if CompareKey(next, first).Less? {
          forall j | j in routes.Keys - todo ensures !CompareKey(next, j).Greater? {
            KeyLaws(next, first, j);
          }
          first := next;
        }
        todo := todo - {next};
      }
    }

    method AttachRoutes(resolvedRoutes: Routes, unresolvedRoutes: Routes)
      modifies this
      ensures Abs() == UpdateRoutes(old(Abs()), resolvedRoutes, unresolvedRoutes)
    {
      var masks := LeastNotPermitted(unresolvedRoutes);
      if masks {
        conditions := Replace(conditions, Refs(InvalidBackend(APPROVED_ROUTES)));
      }
      attached := |unresolvedRoutes| + |resolvedRoutes|;
      resolved, unresolved := resolvedRoutes, unresolvedRoutes;
    }

    method AdjustStatuses()
      modifies this
      ensures Abs() == Adjust(old(Abs()))
    {
      if 0 in conditions && conditions[0].Refs? {
        match conditions[0].refs {
          case Resolved(_) =>
            conditions := Replace(conditions, Accepted);
            conditions := Replace(conditions, Programmed);
          case ResolvedWithNotAllowedRoutes(_) =>
            conditions := Replace(conditions, Accepted);
            conditions := Replace(conditions, Programmed);
          case InvalidBackend(_) =>
            conditions := Replace(conditions, Accepted);
            conditions := Replace(conditions, Programmed);
          case InvalidAllowedRoutes =>
            conditions := Insert(conditions, NotProgrammed);
            conditions := Replace(conditions, NotAccepted);
          case RefNotPermitted(_) =>
            conditions := Insert(conditions, NotProgrammed);
            conditions := Replace(conditions, NotAccepted);
          case InvalidCertificates(_) =>
            conditions := Remove(conditions, Accepted);
            conditions := Replace(conditions, NotProgrammed);
        }
      }
      if 3 in conditions {
        if resolved == map[] {
          conditions := Replace(conditions, NotProgrammed);
          conditions := Replace(conditions, NotAccepted);
        }
        conditions := Remove(conditions, Refs(InvalidAllowedRoutes));
      }
    }

    /** The published conditions, supported kinds and attached-route count; a count beyond 32 bits is
        published as 0. */
    method PublishStatus() returns (status: seq<Published>, kinds: Option<seq<string>>, attachedRoutes: nat)
      ensures status == Publish(conditions) && kinds == PublishedKinds(conditions)
      ensures attachedRoutes == if attached < 0x8000_0000 then attached else 0
    {
      status, kinds := [], None;
      for k := 0 to 4
        invariant status == PublishedUpTo(conditions, k) && kinds == KindsUpTo(conditions, k)
      {
        if k in conditions {
          var p := ResolvedType(conditions[k]);
          status := Retain(status, p.type_) + [p];
          if TellsKinds(conditions[k]) {
            kinds := Some(SupportedKinds(conditions[k]));
          }
        }
      }
      attachedRoutes := if attached < 0x8000_0000 then attached else 0;
    }
  }
}
