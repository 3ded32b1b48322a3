/**
 The resources that the agentgateway backend generates for a gateway: listeners grouped under binds, and
 one route resource for each rule of each attached HTTP route. The delta server tells resources apart by
 the names built here, so the names' injectivity decides whether a proxy can hold the whole list.
 */
module AgentBinds {
  import opened Prelude
  import DX = DeltaXds
  import LS = ListenerStatus

  // ---------------------------------------------------------------------------------------------
  // Names
  // ---------------------------------------------------------------------------------------------

  function Digit(d: nat): char
    requires d < 10
  {
    "0123456789"[d]
  }

  function Decimal(n: nat): (s: string)
    ensures s != [] && '-' !in s
  {
    if n < 10 then [Digit(n)] else Decimal(n / 10) + [Digit(n % 10)]
  }

  function DigitValue(c: char): nat {
    if '0' <= c <= '9' then (c as int) - ('0' as int) else 0
  }

  function Value(s: string): nat {
    if s == [] then 0 else 10 * Value(s[..|s| - 1]) + DigitValue(s[|s| - 1])
  }

  /** The decimal numeral of a number reads back as the number. */
  lemma {:induction false} DecimalValue(n: nat)
    ensures Value(Decimal(n)) == n
    ensures forall i :: 0 <= i < |Decimal(n)| ==> '0' <= Decimal(n)[i] <= '9'
  {
    var s := Decimal(n);
    assert DigitValue(s[|s| - 1]) == n % 10;
    if n >= 10 {
      DecimalValue(n / 10);
      assert s[..|s| - 1] == Decimal(n / 10);
    } else {
      assert s[..|s| - 1] == [];
    }
  }

  function Signed(n: int): string {
    if n < 0 then "-" + Decimal(-n) else Decimal(n)
  }

  lemma {:induction false} DecimalInjective(m: nat, n: nat)
    requires Decimal(m) == Decimal(n)
    ensures m == n
  {
    DecimalValue(m);
    DecimalValue(n);
  }

  lemma {:induction false} SignedInjective(m: int, n: int)
    requires Signed(m) == Signed(n)
    ensures m == n
  {
    if m < 0 && n < 0 {
      assert Signed(m)[1..] == Decimal(-m) && Signed(n)[1..] == Decimal(-n);
      DecimalInjective(-m, -n);
    } else if m >= 0 && n >= 0 {
      DecimalInjective(m, n);
    }
  }

  /** A string splits in one way at its last dash. */
  lemma {:induction false} LastDash(a: string, b: string, u: string, v: string)
    requires a + "-" + u == b + "-" + v && '-' !in u && '-' !in v
    ensures a == b && u == v
  {
    var s := a + "-" + u;
    assert s[|a|] == '-' && s[|b|] == '-';
    assert forall i :: |a| < i < |s| ==> s[i] == u[i - |a| - 1];
    assert forall i :: |b| < i < |s| ==> s[i] == v[i - |b| - 1];
    assert a == s[..|a|] && b == s[..|b|];
    assert u == s[|a| + 1..] && v == s[|b| + 1..];
  }

  // ---------------------------------------------------------------------------------------------
  // Binds
  // ---------------------------------------------------------------------------------------------

  datatype BindProtocol = HttpBind | TlsBind | TcpBind

  /** The enumeration numbers of the protocols, which the API crate fixes. */
  type Numbering = BindProtocol -> nat

  ghost predicate Injective(number: Numbering) {
    forall p, q :: number(p) == number(q) ==> p == q
  }

  datatype Bind = Bind(key: string, port: nat, protocol: BindProtocol)

  datatype GatewayListener = GatewayListener(name: string, port: int, protocol: LS.Protocol,
                                             hostname: Option<string>, tls: Option<LS.TlsType>)

  datatype AgentListener = AgentListener(key: string, bindKey: string, hostname: string, protocol: LS.Protocol,
                                         tls: Option<LS.Certificate>)

  function ProtocolOf(p: LS.Protocol): BindProtocol {
    match p
    case Http => HttpBind
    case Udp => HttpBind
    case Https => TlsBind
    case Tls => TlsBind
    case Tcp => TcpBind
  }

  function BindKey(number: Numbering, port: int, p: BindProtocol): string {
    "bind-port-" + Signed(port) + "-protocol" + "-" + Decimal(number(p))
  }

  /** The port is cast to 32 unsigned bits. */
  function BindOf(number: Numbering, l: GatewayListener): Bind {
    var p := ProtocolOf(l.protocol);
    Bind(BindKey(number, l.port, p), l.port % 0x1_0000_0000, p)
  }

  /** The first certificate resolved in the gateway's own namespace. */
  function FirstSameSpace(cs: seq<LS.Certificate>): Option<LS.Certificate> {
    if cs == [] then None
    else if cs[0].ResolvedSameSpace? then Some(cs[0])
    else FirstSameSpace(cs[1..])
  }

  function TlsOf(l: GatewayListener): Option<LS.Certificate> {
    if (l.protocol.Https? || l.protocol.Tls?) && l.tls.Some? && l.tls.value.Terminate?
    then FirstSameSpace(l.tls.value.certificates)
    else None
  }

  function Convert(number: Numbering, l: GatewayListener): AgentListener {
    var hostname := if l.hostname.Some? then l.hostname.value else "*";
    AgentListener(l.name, BindOf(number, l).key, hostname, l.protocol, TlsOf(l))
  }

  type Binds = map<Bind, seq<AgentListener>>

  /** The listeners of one bind, in the gateway's order. */
  function ListenersOf(number: Numbering, ls: seq<GatewayListener>, b: Bind): (out: seq<AgentListener>)
    ensures forall a :: a in out <==> exists l :: l in ls && BindOf(number, l) == b && a == Convert(number, l)
  {
    if ls == [] then []
    else
      var n := |ls| - 1;
      assert ls == ls[..n] + [ls[n]];
      ListenersOf(number, ls[..n], b) + if BindOf(number, ls[n]) == b then [Convert(number, ls[n])] else []
  }

  /** The binds are exactly those of the listeners, each with exactly its own listeners in order. */
  ghost predicate Grouped(number: Numbering, ls: seq<GatewayListener>, binds: Binds) {
    && (forall b :: b in binds <==> exists l :: l in ls && BindOf(number, l) == b)
    && (forall b :: b in binds ==> binds[b] == ListenersOf(number, ls, b))
  }

  /** The binds after one more listener. */
  function Extended(number: Numbering, before: Binds, l: GatewayListener): Binds {
    var b := BindOf(number, l);
    before[b := (if b in before then before[b] else []) + [Convert(number, l)]]
  }

  function GroupByBind(number: Numbering, ls: seq<GatewayListener>): Binds {
    if ls == [] then map[]
    else
      var n := |ls| - 1;
      Extended(number, GroupByBind(number, ls[..n]), ls[n])
  }

  method GenerateBindingsAndListeners(number: Numbering, ls: seq<GatewayListener>) returns (binds: Binds)
    ensures binds == GroupByBind(number, ls)
  {
    binds := map[];
    for i := 0 to |ls|
      invariant binds == GroupByBind(number, ls[..i])
    {
      assert ls[..i + 1][..i] == ls[..i];
      var b := BindOf(number, ls[i]);
      if b in binds {
        binds := binds[b := binds[b] + [Convert(number, ls[i])]];
      } else {
        assert [] + [Convert(number, ls[i])] == [Convert(number, ls[i])];
        binds := binds[b := [Convert(number, ls[i])]];
      }
    }
    assert ls[..|ls|] == ls;
  }

  /** The fold groups: its binds are exactly those of the listeners, each with exactly its own listeners
      in order. */
  lemma {:induction false} FoldGroups(number: Numbering, ls: seq<GatewayListener>)
    ensures Grouped(number, ls, GroupByBind(number, ls))
  {
    if ls == [] {
      NothingGrouped(number);
    } else {
      var n := |ls| - 1;
      FoldGroups(number, ls[..n]);
      GroupedSnoc(number, ls[..n], ls[n], GroupByBind(number, ls[..n]));
      assert ls == ls[..n] + [ls[n]];
    }
  }

  lemma {:induction false} NothingGrouped(number: Numbering)
    ensures Grouped(number, [], map[])
  {
  }

  lemma {:induction false} GroupedSnoc(number: Numbering, init: seq<GatewayListener>, l: GatewayListener, before: Binds)
    requires Grouped(number, init, before)
    ensures Grouped(number, init + [l], Extended(number, before, l))
  {
    var after := Extended(number, before, l);
    forall c | c in after ensures after[c] == ListenersOf(number, init + [l], c) {
      BindSnoc(number, init, l, before, c);
    }
    BindsSnoc(number, init, l, before.Keys, after.Keys);
  }

  lemma {:induction false} BindSnoc(number: Numbering, init: seq<GatewayListener>, l: GatewayListener, before: Binds,
                                    b: Bind)
    requires Grouped(number, init, before) && b in Extended(number, before, l)
    ensures Extended(number, before, l)[b] == ListenersOf(number, init + [l], b)
  {
    ListenersSnoc(number, init, l, b);
    if b !in before {
      NoListeners(number, init, b);
    }
  }

  lemma {:induction false} BindsSnoc(number: Numbering, init: seq<GatewayListener>, l: GatewayListener,
                                     before: set<Bind>, after: set<Bind>)
    requires forall b :: b in before <==> exists m :: m in init && BindOf(number, m) == b
    requires after == before + {BindOf(number, l)}
    ensures forall b :: b in after <==> exists m :: m in init + [l] && BindOf(number, m) == b
  {
    assert forall m :: m in init + [l] <==> m in init || m == l;
  }

  lemma {:induction false} ListenersSnoc(number: Numbering, init: seq<GatewayListener>, l: GatewayListener, b: Bind)
    ensures ListenersOf(number, init + [l], b) ==
            ListenersOf(number, init, b) + if BindOf(number, l) == b then [Convert(number, l)] else []
  {
    assert (init + [l])[..|init|] == init;
  }

  lemma {:induction false} NoListeners(number: Numbering, ls: seq<GatewayListener>, b: Bind)
    requires forall l :: l in ls ==> BindOf(number, l) != b
    ensures ListenersOf(number, ls, b) == []
  {
    if ls != [] {
      NoListeners(number, ls[..|ls| - 1], b);
    }
  }

  lemma {:induction false} BindKeyInjective(number: Numbering, m: GatewayListener, n: GatewayListener)
    requires Injective(number) && BindOf(number, m).key == BindOf(number, n).key
    ensures BindOf(number, m) == BindOf(number, n)
  {
    var p, q := ProtocolOf(m.protocol), ProtocolOf(n.protocol);
    var prefix, suffix := "bind-port-", "-protocol";
    var a, b := prefix + Signed(m.port) + suffix, prefix + Signed(n.port) + suffix;
    LastDash(a, b, Decimal(number(p)), Decimal(number(q)));
    DecimalInjective(number(p), number(q));
    assert a[|prefix|..|a| - |suffix|] == Signed(m.port);
    assert b[|prefix|..|b| - |suffix|] == Signed(n.port);
    SignedInjective(m.port, n.port);
  }

  ghost predicate ListenedOn(binds: Binds, b: Bind, name: string) {
    b in binds && exists a :: a in binds[b] && a.key == name
  }

  /** Every listener is under exactly one bind, its own, and every listener under a bind carries the
      bind's key. */
  lemma {:induction false} ListenerUnderOneBind(number: Numbering, ls: seq<GatewayListener>, l: GatewayListener,
                                                b: Bind)
    requires l in ls && forall m :: m in ls && m.name == l.name ==> m == l
    ensures ListenedOn(GroupByBind(number, ls), b, l.name) <==> b == BindOf(number, l)
    ensures b in GroupByBind(number, ls) ==> forall a :: a in GroupByBind(number, ls)[b] ==> a.bindKey == b.key
  {
    FoldGroups(number, ls);
    if b == BindOf(number, l) {
      assert Convert(number, l) in GroupByBind(number, ls)[b];
    }
  }

  /** No bind is empty, and no two binds share a key. */
  lemma {:induction false} BindsDistinct(number: Numbering, ls: seq<GatewayListener>, b: Bind, c: Bind)
    requires Injective(number)
    ensures var binds := GroupByBind(number, ls);
            && (b in binds ==> binds[b] != [])
            && (b in binds && c in binds && b.key == c.key ==> b == c)
  {
    FoldGroups(number, ls);
    var binds := GroupByBind(number, ls);
    if b in binds {
      var l :| l in ls && BindOf(number, l) == b;
      assert Convert(number, l) in ListenersOf(number, ls, b);
      if c in binds && b.key == c.key {
        var m :| m in ls && BindOf(number, m) == c;
        BindKeyInjective(number, l, m);
      }
    }
  }

  // ---------------------------------------------------------------------------------------------
  // Certificates
  // ---------------------------------------------------------------------------------------------

  /** The certificates of a listener as the TLS validation leaves them. */
  function Validated(env: LS.Lookup, cs: seq<LS.Certificate>): (out: seq<LS.Certificate>)
    ensures |out| == |cs|
  {
    if cs == [] then [] else [LS.CheckCertificate(env, cs[0]).certificate] + Validated(env, cs[1..])
  }

  /** A terminating listener gets TLS material exactly if the validation resolves a certificate of the
      gateway's own namespace. */
  lemma {:induction false} TlsIff(env: LS.Lookup, cs: seq<LS.Certificate>)
    ensures FirstSameSpace(Validated(env, cs)).Some? <==>
            exists i :: 0 <= i < |cs| && LS.CheckCertificate(env, cs[i]).failure.None?
                        && cs[i].key.namespace == env.namespace
  {
    if cs != [] {
      TlsIff(env, cs[1..]);
      LS.CertificateOutcome(env, cs[0]);
      assert Validated(env, cs)[1..] == Validated(env, cs[1..]);
      assert forall i :: 0 <= i < |cs| - 1 ==> cs[1..][i] == cs[i + 1];
      if i :| 0 <= i < |cs| && LS.CheckCertificate(env, cs[i]).failure.None? && cs[i].key.namespace == env.namespace {
        assert i > 0 ==> cs[1..][i - 1] == cs[i];
      }
    }
  }

  /** The certificate at `i` is the first that can be used and is of the gateway's own namespace. */
  ghost predicate FirstOwn(env: LS.Lookup, cs: seq<LS.Certificate>, i: nat) {
    && i < |cs| && LS.Good(env, cs[i]) && cs[i].key.namespace == env.namespace
    && forall j :: 0 <= j < i ==> !(LS.Good(env, cs[j]) && cs[j].key.namespace == env.namespace)
  }

  lemma {:induction false} FirstSameSpaceIs(env: LS.Lookup, cs: seq<LS.Certificate>)
    ensures FirstSameSpace(Validated(env, cs)).Some? <==> exists i: nat :: FirstOwn(env, cs, i)
    ensures forall i: nat :: FirstOwn(env, cs, i) ==>
              FirstSameSpace(Validated(env, cs)) == Some(LS.CheckCertificate(env, cs[i]).certificate)
  {
    if cs != [] {
      var rest := cs[1..];
      FirstSameSpaceIs(env, rest);
      LS.CertificateOutcome(env, cs[0]);
      assert Validated(env, cs)[1..] == Validated(env, rest);
      assert forall j :: 0 <= j < |rest| ==> rest[j] == cs[j + 1];
      if LS.Good(env, cs[0]) && cs[0].key.namespace == env.namespace {
        assert FirstOwn(env, cs, 0);
      } else {
        forall i: nat ensures FirstOwn(env, cs, i + 1) <==> FirstOwn(env, rest, i) {
          if FirstOwn(env, rest, i) {
            assert forall j :: 0 <= j < i + 1 ==> j == 0 || cs[j] == rest[j - 1];
          }
        }
        assert forall i: nat :: FirstOwn(env, cs, i) ==> i > 0 && FirstOwn(env, rest, i - 1);
      }
    }
  }

  /** The certificate and key that the secret holds. */
  function Material(env: LS.Lookup, c: LS.Certificate): LS.Certificate
    requires LS.Good(env, c)
  {
    var data := env.secrets[c.key].data.value;
    LS.ResolvedSameSpace(c.key, data.certificate.value, data.privateKey.value)
  }

  /** What becomes of a listener after validation: it keeps its name, protocol and hostname, is bound to its
      port and kind of protocol, and gets the certificate and key of the first usable secret of the own
      namespace if it terminates HTTPS or TLS, and nothing otherwise. */
  lemma {:induction false} ConvertedListener(number: Numbering, env: LS.Lookup, l: GatewayListener,
                                             cs: seq<LS.Certificate>)
    requires l.tls == Some(LS.Terminate(Validated(env, cs)))
    ensures var a, b := Convert(number, l), BindOf(number, l);
            && a.key == l.name && a.bindKey == b.key && a.protocol == l.protocol
            && a.hostname == (if l.hostname.None? then "*" else l.hostname.value)
            && (0 <= l.port < 0x1_0000_0000 ==> b.port == l.port)
            && (b.protocol == TlsBind <==> l.protocol.Https? || l.protocol.Tls?)
            && (b.protocol == TcpBind <==> l.protocol.Tcp?)
    ensures Convert(number, l).tls.Some? <==>
            (l.protocol.Https? || l.protocol.Tls?) && exists i: nat :: FirstOwn(env, cs, i)
    ensures forall i: nat :: FirstOwn(env, cs, i) && (l.protocol.Https? || l.protocol.Tls?) ==>
              Convert(number, l).tls == Some(Material(env, cs[i]))
  {
    FirstSameSpaceIs(env, cs);
    forall i: nat | FirstOwn(env, cs, i)
      ensures LS.CheckCertificate(env, cs[i]).certificate == Material(env, cs[i])
    {
    }
  }

  /** A listener whose certificates are all granted from other namespaces passes the validation and yet
      gets no TLS material. */
  lemma {:induction false} GrantedCertificatesUnused(env: LS.Lookup, cs: seq<LS.Certificate>)
    requires forall i :: 0 <= i < |cs| ==> cs[i].key.namespace != env.namespace
    requires forall i :: 0 <= i < |cs| ==> LS.CheckCertificate(env, cs[i]).failure.None?
    ensures LS.LastFailure(env, cs) == None && FirstSameSpace(Validated(env, cs)) == None
  {
    TlsIff(env, cs);
    LS.LastFailureIff(env, cs);
    forall i | 0 <= i < |cs| ensures !LS.EndsUnresolved(LS.CheckCertificate(env, cs[i]).certificate) {
      LS.CertificateOutcome(env, cs[i]);
    }
  }

  // ---------------------------------------------------------------------------------------------
  // Routes
  // ---------------------------------------------------------------------------------------------

  /** An HTTP route on a listener, resolved or not, with the content of each of its rules. */
  datatype Attachment = Attachment(listener: string, namespace: string, route: string, rules: seq<string>)

  datatype RouteResource = RouteResource(key: string, listenerKey: string, namespace: string, ruleName: string,
                                         content: string)

  /** Rules are named after their route, without its namespace. */
  function RuleName(route: string, i: nat): string {
    route + "-" + Decimal(i)
  }

  function RouteKey(route: string, i: nat): string {
    route + "-" + RuleName(route, i)
  }

  function ResourceOf(a: Attachment, i: nat): RouteResource
    requires i < |a.rules|
  {
    RouteResource(RouteKey(a.route, i), a.listener, a.namespace, RuleName(a.route, i), a.rules[i])
  }

  lemma {:induction false} RouteKeyInjective(r: string, i: nat, s: string, j: nat)
    requires RouteKey(r, i) == RouteKey(s, j)
    ensures r == s && i == j
  {
    assert RouteKey(r, i) == (r + "-" + r) + "-" + Decimal(i);
    assert RouteKey(s, j) == (s + "-" + s) + "-" + Decimal(j);
    LastDash(r + "-" + r, s + "-" + s, Decimal(i), Decimal(j));
    DecimalInjective(i, j);
    assert |r| == |s|;
    assert r == (r + "-" + r)[..|r|] && s == (s + "-" + s)[..|s|];
  }

  function OfAttachment(a: Attachment, n: nat): (out: seq<RouteResource>)
    requires n <= |a.rules|
    ensures |out| == n
  {
    seq(n, i requires 0 <= i < n => ResourceOf(a, i))
  }

  function Routes(as_: seq<Attachment>): seq<RouteResource> {
    if as_ == [] then []
    else
      var n := |as_| - 1;
      Routes(as_[..n]) + OfAttachment(as_[n], |as_[n].rules|)
  }

  /** Every rule of every attachment is sent, and nothing else: under the route's name twice and the rule's
      number, on the attachment's listener, with the rule's content. */
  lemma {:induction false} EveryRuleSent(as_: seq<Attachment>, x: RouteResource)
    ensures x in Routes(as_) <==>
            exists a, i: nat :: a in as_ && IsRule(a, i, x)
  {
    if as_ != [] {
      var n := |as_| - 1;
      assert as_ == as_[..n] + [as_[n]];
      EveryRuleSent(as_[..n], x);
      OfAttachmentIff(as_[n], x);
    }
  }

  predicate IsRule(a: Attachment, i: nat, x: RouteResource) {
    && i < |a.rules|
    && x.key == a.route + "-" + a.route + "-" + Decimal(i) && x.ruleName == a.route + "-" + Decimal(i)
    && x.listenerKey == a.listener && x.namespace == a.namespace && x.content == a.rules[i]
  }

  lemma {:induction false} OfAttachmentIff(a: Attachment, x: RouteResource)
    ensures x in OfAttachment(a, |a.rules|) <==> exists i: nat :: IsRule(a, i, x)
  {
    forall i: nat | i < |a.rules| ensures IsRule(a, i, x) <==> x == ResourceOf(a, i) {
      assert RouteKey(a.route, i) == a.route + "-" + a.route + "-" + Decimal(i);
    }
    if i: nat :| IsRule(a, i, x) {
      assert OfAttachment(a, |a.rules|)[i] == x;
    }
  }

  /** The loops over listeners, their routes and the routes' rules. */
  method GenerateRoutes(as_: seq<Attachment>) returns (out: seq<RouteResource>)
    ensures out == Routes(as_)
  {
    out := [];
    for k := 0 to |as_|
      invariant out == Routes(as_[..k])
    {
      assert as_[..k + 1][..k] == as_[..k];
      var a := as_[k];
      var before := out;
      for i := 0 to |a.rules|
        invariant out == before + OfAttachment(a, i)
      {
        assert OfAttachment(a, i + 1) == OfAttachment(a, i) + [ResourceOf(a, i)];
        out := out + [ResourceOf(a, i)];
      }
    }
    assert as_[..|as_|] == as_;
  }

  ghost predicate DistinctKeys(rs: seq<RouteResource>) {
    forall i, j :: 0 <= i < j < |rs| ==> rs[i].key != rs[j].key
  }

  ghost predicate HasKey(rs: seq<RouteResource>, key: string) {
    exists i :: 0 <= i < |rs| && rs[i].key == key
  }

  /** Some route name occurs in two attachments that both have rules. */
  ghost predicate Repeats(as_: seq<Attachment>) {
    exists j, k :: 0 <= j < k < |as_| && SharesRoute(as_[j], as_[k])
  }

  ghost predicate SharesRoute(a: Attachment, b: Attachment) {
    a.route == b.route && a.rules != [] && b.rules != []
  }

  lemma {:induction false} HasKeyIff(as_: seq<Attachment>, route: string, i: nat)
    ensures HasKey(Routes(as_), RouteKey(route, i)) <==>
            exists k :: 0 <= k < |as_| && as_[k].route == route && i < |as_[k].rules|
  {
    if as_ != [] {
      var n := |as_| - 1;
      var init, last := as_[..n], as_[n];
      HasKeyIff(init, route, i);
      var xs, ys := Routes(init), OfAttachment(last, |last.rules|);
      assert forall k :: 0 <= k < n ==> init[k] == as_[k];
      if HasKey(ys, RouteKey(route, i)) {
        var j :| 0 <= j < |ys| && ys[j].key == RouteKey(route, i);
        RouteKeyInjective(last.route, j, route, i);
      }
      if last.route == route && i < |last.rules| {
        assert ys[i].key == RouteKey(route, i);
      }
      HasKeyConcat(xs, ys, RouteKey(route, i));
    }
  }

  lemma {:induction false} HasKeyConcat(xs: seq<RouteResource>, ys: seq<RouteResource>, key: string)
    ensures HasKey(xs + ys, key) <==> HasKey(xs, key) || HasKey(ys, key)
  {
    if i :| 0 <= i < |ys| && ys[i].key == key {
      assert (xs + ys)[|xs| + i].key == key;
    }
    if i :| 0 <= i < |xs| && xs[i].key == key {
      assert (xs + ys)[i].key == key;
    }
  }

  /** The generated routes have pairwise distinct keys exactly if no route name occurs in two attachments
      with rules: not on two listeners, and not in two namespaces. */
  lemma {:induction false} RouteKeysDistinctIff(as_: seq<Attachment>)
    ensures DistinctKeys(Routes(as_)) <==> !Repeats(as_)
  {
    if as_ != [] {
      var n := |as_| - 1;
      RouteKeysDistinctIff(as_[..n]);
      DistinctSnoc(as_[..n], as_[n]);
      RepeatsSnoc(as_[..n], as_[n]);
      assert as_ == as_[..n] + [as_[n]];
    }
  }

  lemma {:induction false} DistinctSnoc(init: seq<Attachment>, last: Attachment)
    ensures DistinctKeys(Routes(init) + OfAttachment(last, |last.rules|)) <==>
            DistinctKeys(Routes(init)) && !exists k :: 0 <= k < |init| && SharesRoute(init[k], last)
  {
    var xs, ys := Routes(init), OfAttachment(last, |last.rules|);
    if k :| 0 <= k < |init| && SharesRoute(init[k], last) {
      HasKeyIff(init, last.route, 0);
      var i :| 0 <= i < |xs| && xs[i].key == RouteKey(last.route, 0);
      assert (xs + ys)[i].key == (xs + ys)[|xs|].key;
    } else {
      forall i, j | 0 <= i < j < |ys| ensures ys[i].key != ys[j].key {
        if ys[i].key == ys[j].key {
          RouteKeyInjective(last.route, i, last.route, j);
        }
      }
      forall i, j | 0 <= i < |xs| && 0 <= j < |ys| ensures xs[i].key != ys[j].key {
        HasKeyIff(init, last.route, j);
      }
      DistinctConcat(xs, ys);
    }
  }

  lemma {:induction false} RepeatsSnoc(init: seq<Attachment>, last: Attachment)
    ensures Repeats(init + [last]) <==>
            Repeats(init) || exists k :: 0 <= k < |init| && SharesRoute(init[k], last)
  {
    var all := init + [last];
    assert forall k :: 0 <= k < |init| ==> all[k] == init[k];
    if k :| 0 <= k < |init| && SharesRoute(init[k], last) {
      assert SharesRoute(all[k], all[|init|]);
    }
    if j, k :| 0 <= j < k < |init| && SharesRoute(init[j], init[k]) {
      assert SharesRoute(all[j], all[k]);
    }
  }

  lemma {:induction false} DistinctConcat(xs: seq<RouteResource>, ys: seq<RouteResource>)
    requires forall i, j :: 0 <= i < j < |ys| ==> ys[i].key != ys[j].key
    requires forall i, j :: 0 <= i < |xs| && 0 <= j < |ys| ==> xs[i].key != ys[j].key
    ensures DistinctKeys(xs + ys) <==> DistinctKeys(xs)
  {
    assert forall i :: 0 <= i < |xs| ==> (xs + ys)[i] == xs[i];
  }

  // ---------------------------------------------------------------------------------------------
  // What the proxy ends up with
  // ---------------------------------------------------------------------------------------------

  /** The route as the delta server sends it: a name and its encoding. */
  function Sent(encode: RouteResource -> string, r: RouteResource): DX.Resource {
    DX.Resource("route/" + r.key, encode(r))
  }

  function SentAll(encode: RouteResource -> string, rs: seq<RouteResource>): seq<DX.Resource> {
    if rs == [] then [] else SentAll(encode, rs[..|rs| - 1]) + [Sent(encode, rs[|rs| - 1])]
  }

  lemma {:induction false} SentIn(encode: RouteResource -> string, rs: seq<RouteResource>, x: DX.Resource)
    ensures x in SentAll(encode, rs) <==> exists r :: r in rs && x == Sent(encode, r)
  {
    if rs != [] {
      var n := |rs| - 1;
      assert rs == rs[..n] + [rs[n]];
      SentIn(encode, rs[..n], x);
    }
  }

  function SentName(route: string, i: nat): string {
    "route/" + RouteKey(route, i)
  }

  /** Attachment `k` is the last one of a route of this name with a rule `i`. */
  ghost predicate LastOf(as_: seq<Attachment>, k: nat, route: string, i: nat) {
    && k < |as_| && as_[k].route == route && i < |as_[k].rules|
    && forall j :: k < j < |as_| ==> as_[j].route != route || i >= |as_[j].rules|
  }

  lemma {:induction false} SentConcat(encode: RouteResource -> string, xs: seq<RouteResource>, ys: seq<RouteResource>)
    ensures SentAll(encode, xs + ys) == SentAll(encode, xs) + SentAll(encode, ys)
  {
    if ys == [] {
      assert xs + ys == xs;
    } else {
      var n := |ys| - 1;
      assert (xs + ys)[..|xs + ys| - 1] == xs + ys[..n];
      SentConcat(encode, xs, ys[..n]);
    }
  }

  lemma {:induction false} SentNameInjective(r: string, i: nat, q: string, j: nat)
    requires r != q || i != j
    ensures SentName(r, i) != SentName(q, j)
  {
    if SentName(r, i) == SentName(q, j) {
      assert SentName(r, i)[6..] == RouteKey(r, i) && SentName(q, j)[6..] == RouteKey(q, j);
      RouteKeyInjective(r, i, q, j);
    }
  }

  lemma {:induction false} SentSnoc(encode: RouteResource -> string, view: DX.View, a: Attachment, n: nat)
    requires n < |a.rules|
    ensures DX.AddAll(view, SentAll(encode, OfAttachment(a, n + 1))) ==
            DX.AddAll(view, SentAll(encode, OfAttachment(a, n)))[SentName(a.route, n) := Sent(encode, ResourceOf(a, n))]
  {
    var xs, r := OfAttachment(a, n), ResourceOf(a, n);
    assert OfAttachment(a, n + 1) == xs + [r] && (xs + [r])[..n] == xs;
    var sent := SentAll(encode, xs);
    assert (sent + [Sent(encode, r)])[..|sent|] == sent;
  }

  /** `after` is `view` with the resources of the attachment's first `n` rules, as far as this name goes. */
  ghost predicate AttachedAt(encode: RouteResource -> string, view: DX.View, after: DX.View, a: Attachment, n: nat,
                             route: string, i: nat)
    requires n <= |a.rules|
  {
    && (a.route == route && i < n ==>
          SentName(route, i) in after && after[SentName(route, i)] == Sent(encode, ResourceOf(a, i)))
    && (a.route != route || i >= n ==>
          && (SentName(route, i) in after <==> SentName(route, i) in view)
          && (SentName(route, i) in view ==> after[SentName(route, i)] == view[SentName(route, i)]))
  }

  /** What the part sent for one attachment does to a view, name by name. */
  lemma {:induction false} AttachmentAt(encode: RouteResource -> string, view: DX.View, a: Attachment, n: nat,
                                        route: string, i: nat)
    requires n <= |a.rules|
    ensures AttachedAt(encode, view, DX.AddAll(view, SentAll(encode, OfAttachment(a, n))), a, n, route, i)
  {
    var sent := SentAll(encode, OfAttachment(a, n));
    if n == 0 {
      assert sent == [] && DX.AddAll(view, sent) == view;
    } else {
      var before := DX.AddAll(view, SentAll(encode, OfAttachment(a, n - 1)));
      AttachmentAt(encode, view, a, n - 1, route, i);
      AttachedNext(encode, view, before, a, n - 1, route, i);
      SentSnoc(encode, view, a, n - 1);
    }
  }

  lemma {:induction false} AttachedNext(encode: RouteResource -> string, view: DX.View, before: DX.View, a: Attachment,
                                        n: nat, route: string, i: nat)
    requires n < |a.rules| && AttachedAt(encode, view, before, a, n, route, i)
    ensures AttachedAt(encode, view, before[SentName(a.route, n) := Sent(encode, ResourceOf(a, n))], a, n + 1, route, i)
  {
    if a.route != route || i != n {
      SentNameInjective(route, i, a.route, n);
      UpdateElsewhere(before, SentName(a.route, n), Sent(encode, ResourceOf(a, n)), SentName(route, i));
    }
  }

  lemma {:induction false} UpdateElsewhere(view: DX.View, at: string, r: DX.Resource, name: string)
    requires at != name
    ensures name in view[at := r] <==> name in view
    ensures name in view ==> view[at := r][name] == view[name]
  {
  }

  lemma {:induction false} AddAllConcat(view: DX.View, xs: seq<DX.Resource>, ys: seq<DX.Resource>)
    ensures DX.AddAll(view, xs + ys) == DX.AddAll(DX.AddAll(view, xs), ys)
  {
    if ys == [] {
      assert xs + ys == xs;
    } else {
      var n := |ys| - 1;
      assert (xs + ys)[..|xs + ys| - 1] == xs + ys[..n];
      AddAllConcat(view, xs, ys[..n]);
    }
  }

  ghost predicate Holds(encode: RouteResource -> string, view: DX.View, a: Attachment, i: nat)
    requires i < |a.rules|
  {
    SentName(a.route, i) in view && view[SentName(a.route, i)] == Sent(encode, ResourceOf(a, i))
  }

  /** A proxy that is sent the generated routes holds, for each rule of a route name, only the resource
      of the last attachment: a route attached to two listeners is served on one of them. */
  lemma {:induction false} ProxyHoldsLastAttachment(encode: RouteResource -> string, as_: seq<Attachment>, k: nat,
                                                    i: nat)
    requires k < |as_| && LastOf(as_, k, as_[k].route, i)
    ensures Holds(encode, DX.ViewOf(SentAll(encode, Routes(as_))), as_[k], i)
  {
    var n := |as_| - 1;
    if k < n {
      LastOfInit(as_, k, as_[k].route, i);
      ProxyHoldsLastAttachment(encode, as_[..n], k, i);
    }
    ViewSnoc(encode, as_);
    AttachmentHolds(encode, DX.ViewOf(SentAll(encode, Routes(as_[..n]))), as_[n], as_[k], i);
  }

  lemma {:induction false} AttachmentHolds(encode: RouteResource -> string, view: DX.View, last: Attachment,
                                           a: Attachment, i: nat)
    requires i < |a.rules|
    requires a == last || ((last.route != a.route || i >= |last.rules|) && Holds(encode, view, a, i))
    ensures Holds(encode, DX.AddAll(view, SentAll(encode, OfAttachment(last, |last.rules|))), a, i)
  {
    AttachmentAt(encode, view, last, |last.rules|, a.route, i);
  }

  lemma {:induction false} LastOfInit(as_: seq<Attachment>, k: nat, route: string, i: nat)
    requires LastOf(as_, k, route, i) && k < |as_| - 1
    ensures LastOf(as_[..|as_| - 1], k, route, i)
    ensures as_[|as_| - 1].route != route || i >= |as_[|as_| - 1].rules|
  {
    assert forall j :: 0 <= j < |as_| - 1 ==> as_[..|as_| - 1][j] == as_[j];
  }

  lemma {:induction false} ViewSnoc(encode: RouteResource -> string, as_: seq<Attachment>)
    requires as_ != []
    ensures var init, last := as_[..|as_| - 1], as_[|as_| - 1];
            DX.ViewOf(SentAll(encode, Routes(as_))) ==
            DX.AddAll(DX.ViewOf(SentAll(encode, Routes(init))), SentAll(encode, OfAttachment(last, |last.rules|)))
  {
    var init, last := as_[..|as_| - 1], as_[|as_| - 1];
    var xs, ys := Routes(init), OfAttachment(last, |last.rules|);
    SentConcat(encode, xs, ys);
    AddAllConcat(map[], SentAll(encode, xs), SentAll(encode, ys));
  }

  lemma {:induction false} AttachmentInRoutes(as_: seq<Attachment>, k: nat, i: nat)
    requires k < |as_| && i < |as_[k].rules|
    ensures ResourceOf(as_[k], i) in Routes(as_)
  {
    var n := |as_| - 1;
    if k < n {
      assert as_[..n][k] == as_[k];
      AttachmentInRoutes(as_[..n], k, i);
    } else {
      assert OfAttachment(as_[n], |as_[n].rules|)[i] == ResourceOf(as_[n], i);
    }
  }

  /** No route is listed twice on one listener. */
  ghost predicate AttachedOnce(as_: seq<Attachment>) {
    forall j, k :: 0 <= j < k < |as_| ==>
      as_[j].listener != as_[k].listener || as_[j].namespace != as_[k].namespace || as_[j].route != as_[k].route
  }

  /** The coherence that keeps the delta server's proxies in step holds of the generated routes exactly
      if no route name is attached twice with rules. */
  lemma {:induction false} SentCoherentIff(encode: RouteResource -> string, as_: seq<Attachment>)
    requires AttachedOnce(as_) && forall r, q :: encode(r) == encode(q) ==> r == q
    ensures DX.Coherent(SentAll(encode, Routes(as_))) <==> !Repeats(as_)
  {
    if j, k :| 0 <= j < k < |as_| && SharesRoute(as_[j], as_[k]) {
      AttachmentInRoutes(as_, j, 0);
      AttachmentInRoutes(as_, k, 0);
      var x, y := Sent(encode, ResourceOf(as_[j], 0)), Sent(encode, ResourceOf(as_[k], 0));
      SentIn(encode, Routes(as_), x);
      SentIn(encode, Routes(as_), y);
      assert x in SentAll(encode, Routes(as_)) && y in SentAll(encode, Routes(as_)) && x.name == y.name;
    } else {
      RouteKeysDistinctIff(as_);
      DistinctKeysCoherent(encode, Routes(as_));
    }
  }

  lemma {:induction false} DistinctKeysCoherent(encode: RouteResource -> string, rs: seq<RouteResource>)
    requires DistinctKeys(rs)
    ensures DX.Coherent(SentAll(encode, rs))
  {
    forall x, y | x in SentAll(encode, rs) && y in SentAll(encode, rs) && x.name == y.name ensures x == y {
      SentIn(encode, rs, x);
      SentIn(encode, rs, y);
      var r :| r in rs && x == Sent(encode, r);
      var q :| q in rs && y == Sent(encode, q);
      assert x.name[6..] == r.key && y.name[6..] == q.key;
    }
  }
}
