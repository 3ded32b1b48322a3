/**
 The incremental ("delta") xDS servers of the agentgateway and orion backends.

 Both servers keep, per gateway, two managed resource lists and, per connected client, a cached
 copy of those lists. They differ only in how one list change is turned into responses, so one
 state machine, parameterised by `Backend`, describes both.

 A resource is its name plus an opaque encoded body. For agentgateway the name is the one that
 `get_resource_name`/`get_workload_name` compute from the body.
 */
module DeltaXds {
  import opened Prelude

  datatype Backend = AgentGateway | Orion

  datatype Resource = Resource(name: string, body: string)

  /** A response carries resources to add or replace and names to remove; `slot` is `None` for an
      unknown type URL. */
  datatype Response = Response(slot: Option<Slot>, resources: seq<Resource>, removed: seq<string>)

  /** What the proxy holds of one type: its resources by name. */
  type View = map<string, Resource>

  // ---------------------------------------------------------------------------------------------
  // Lists of resources
  // ---------------------------------------------------------------------------------------------

  function NameList(rs: seq<Resource>): (ns: seq<string>)
    ensures forall n :: n in ns <==> n in NamesOf(rs)
  {
    var ns := seq(|rs|, i requires 0 <= i < |rs| => rs[i].name);
    assert forall i :: 0 <= i < |rs| ==> ns[i] == rs[i].name;
    ns
  }

  function NamesOf(rs: seq<Resource>): set<string> {
    set r | r in rs :: r.name
  }

  /** In a coherent list a name determines the resource. Lists with pairwise distinct names are
      coherent. */
  ghost predicate Coherent(rs: seq<Resource>) {
    forall r, q :: r in rs && q in rs && r.name == q.name ==> r == q
  }

  /** The elements of `xs` that do not occur in `other`, in order. */
  function Difference<T(==,!new)>(xs: seq<T>, other: seq<T>): (out: seq<T>)
    ensures forall x :: x in out <==> x in xs && x !in other
  {
    if xs == [] then []
    else
      var n := |xs| - 1;
      assert xs == xs[..n] + [xs[n]];
      Difference(xs[..n], other) + (if xs[n] in other then [] else [xs[n]])
  }

  method DifferenceLoop<T(==,!new)>(xs: seq<T>, other: seq<T>) returns (out: seq<T>)
    ensures out == Difference(xs, other)
  {
    out := [];
    for i := 0 to |xs|
      invariant out == Difference(xs[..i], other)
    {
      assert xs[..i + 1][..i] == xs[..i];
      if xs[i] !in other {
        out := out + [xs[i]];
      }
    }
    assert xs[..|xs|] == xs;
  }

  /** The last resource of the list that carries the name: the one that wins when the list is
      applied in order. */
  function Winner(rs: seq<Resource>, n: string): (r: Resource)
    requires n in NamesOf(rs)
    ensures r in rs && r.name == n
  {
    var k := |rs| - 1;
    if rs[k].name == n then rs[k]
    else
      assert rs == rs[..k] + [rs[k]];
      Winner(rs[..k], n)
  }

  // ---------------------------------------------------------------------------------------------
  // The proxy
  // ---------------------------------------------------------------------------------------------

  function AddAll(view: View, rs: seq<Resource>): View {
    if rs == [] then view
    else
      var k := |rs| - 1;
      AddAll(view, rs[..k])[rs[k].name := rs[k]]
  }

  function RemoveAll(view: View, names: seq<string>): View {
    map n | n in view && n !in names :: view[n]
  }

  /** The proxy applies removals before additions. */
  function Apply(view: View, r: Response): View {
    AddAll(RemoveAll(view, r.removed), r.resources)
  }

  /** The view a proxy reaches from nothing when it is given the list. */
  function ViewOf(rs: seq<Resource>): View {
    AddAll(map[], rs)
  }

  /** Applies, in order, those responses that concern the given type. */
  function Replay(view: View, queue: seq<Response>, slot: Slot): View {
    if queue == [] then view
    else
      var k := |queue| - 1;
      var before := Replay(view, queue[..k], slot);
      if queue[k].slot == Some(slot) then Apply(before, queue[k]) else before
  }

  lemma {:induction false} ReplayConcat(view: View, a: seq<Response>, b: seq<Response>, slot: Slot)
    ensures Replay(view, a + b, slot) == Replay(Replay(view, a, slot), b, slot)
  {
    if b == [] {
      assert a + b == a;
    } else {
      var k := |b| - 1;
      assert (a + b)[..|a + b| - 1] == a + b[..k];
      ReplayConcat(view, a, b[..k], slot);
    }
  }

  /** What a list application does to one name. */
  lemma {:induction false} AddAllAt(view: View, rs: seq<Resource>, n: string)
    ensures n in AddAll(view, rs) <==> n in view || n in NamesOf(rs)
    ensures n in NamesOf(rs) ==> AddAll(view, rs)[n] == Winner(rs, n)
    ensures n in view && n !in NamesOf(rs) ==> AddAll(view, rs)[n] == view[n]
  {
    if rs != [] {
      var k := |rs| - 1;
      assert rs == rs[..k] + [rs[k]];
      AddAllAt(view, rs[..k], n);
    }
  }

  // ---------------------------------------------------------------------------------------------
  // One list change
  // ---------------------------------------------------------------------------------------------

  function ToAdd(old': seq<Resource>, new': seq<Resource>): seq<Resource> {
    Difference(new', old')
  }

  function Gone(old': seq<Resource>, new': seq<Resource>): seq<string> {
    Difference(NameList(old'), NameList(new'))
  }

  /** The responses sent to a client whose cached list changes from `old'` to `new'`. */
  function Delta(b: Backend, slot: Slot, old': seq<Resource>, new': seq<Resource>): seq<Response> {
    var add := ToAdd(old', new');
    match (b, slot)
    case (AgentGateway, Primary) =>
      [Response(Some(slot), [], Gone(old', new') + NameList(add)), Response(Some(slot), add, [])]
    case (AgentGateway, Secondary) =>
      [Response(Some(slot), [], Gone(old', new')), Response(Some(slot), add, [])]
    case (Orion, Primary) =>
      [Response(Some(slot), add, Gone(old', new'))]
    case (Orion, Secondary) =>
      [Response(Some(slot), add, NameList(Difference(old', new')))]
  }

  /** All names removed by `Delta`, whichever response names them. */
  function Removed(b: Backend, slot: Slot, old': seq<Resource>, new': seq<Resource>): seq<string> {
    match (b, slot)
    case (AgentGateway, Primary) => Gone(old', new') + NameList(ToAdd(old', new'))
    case (AgentGateway, Secondary) => Gone(old', new')
    case (Orion, Primary) => Gone(old', new')
    case (Orion, Secondary) => NameList(Difference(old', new'))
  }

  /** Splitting a change into a delete response and an add response has the effect of one response. */
  lemma {:induction false} DeltaEffect(b: Backend, slot: Slot, old': seq<Resource>, new': seq<Resource>, view: View)
    ensures Replay(view, Delta(b, slot, old', new'), slot)
            == AddAll(RemoveAll(view, Removed(b, slot, old', new')), ToAdd(old', new'))
  {
    var d := Delta(b, slot, old', new');
    if |d| == 1 {
      assert d[..0] == [];
    } else {
      assert d[..1] == [d[0]] && d[..1][..0] == [];
      var cleared := RemoveAll(view, d[0].removed);
      assert Replay(view, d[..1], slot) == cleared;
      assert RemoveAll(cleared, []) == cleared;
    }
  }

  /** What a list change does to one name of the view. */
  lemma {:induction false} DeltaAt(b: Backend, slot: Slot, old': seq<Resource>, new': seq<Resource>, view: View,
                                   n: string)
    ensures var after := Replay(view, Delta(b, slot, old', new'), slot);
            var add := ToAdd(old', new');
            if n in NamesOf(add) then n in after && after[n] == Winner(add, n)
            else if n in Removed(b, slot, old', new') then n !in after
            else if n in view then n in after && after[n] == view[n]
            else n !in after
  {
    DeltaEffect(b, slot, old', new', view);
    AddAllAt(RemoveAll(view, Removed(b, slot, old', new')), ToAdd(old', new'), n);
  }

  lemma {:induction false} ViewOfAt(rs: seq<Resource>, n: string)
    ensures n in ViewOf(rs) <==> n in NamesOf(rs)
    ensures n in NamesOf(rs) ==> ViewOf(rs)[n] == Winner(rs, n)
  {
    AddAllAt(map[], rs, n);
  }

  ghost predicate Submap(a: View, b: View) {
    forall n :: n in a ==> n in b && a[n] == b[n]
  }

  /** The deltas that name removed resources by comparing names, not bodies. */
  predicate ComparesNames(b: Backend, slot: Slot) {
    !(b.Orion? && slot.Secondary?)
  }

  /** Without any condition on the lists, the names held by the proxy follow the names published. */
  lemma {:induction false} DeltaNames(b: Backend, slot: Slot, old': seq<Resource>, new': seq<Resource>, view: View)
    requires ComparesNames(b, slot)
    requires view.Keys <= NamesOf(old')
    ensures Replay(view, Delta(b, slot, old', new'), slot).Keys <= NamesOf(new')
    ensures view.Keys == NamesOf(old') ==> Replay(view, Delta(b, slot, old', new'), slot).Keys == NamesOf(new')
  {
    var after := Replay(view, Delta(b, slot, old', new'), slot);
    forall n
      ensures n in after ==> n in NamesOf(new')
      ensures view.Keys == NamesOf(old') && n in NamesOf(new') ==> n in after
    {
      DeltaAt(b, slot, old', new', view, n);
    }
  }

  /** Orion clusters are removed by comparing whole resources. The names then follow the published
      names exactly when every kept name that loses a resource also gains one. */
  lemma {:induction false} ClusterNames(old': seq<Resource>, new': seq<Resource>)
    ensures Replay(ViewOf(old'), Delta(Orion, Secondary, old', new'), Secondary).Keys == NamesOf(new')
            <==> NamesOf(Difference(old', new')) * NamesOf(new') <= NamesOf(Difference(new', old'))
  {
    var after := Replay(ViewOf(old'), Delta(Orion, Secondary, old', new'), Secondary);
    forall n
      ensures n in after <==> n in NamesOf(Difference(new', old'))
                              || (n in NamesOf(old') && n !in NamesOf(Difference(old', new')))
    {
      DeltaAt(Orion, Secondary, old', new', ViewOf(old'), n);
      ViewOfAt(old', n);
    }
    forall n | n in NamesOf(new') && n !in after
      ensures n in NamesOf(Difference(old', new'))
    {
      var r :| r in new' && r.name == n;
      assert r in old';
    }
  }

  /** A resource that wins its name and was published before also won before, and neither the additions
      nor the removals touch its name. */
  ghost predicate Stable(b: Backend, slot: Slot, old': seq<Resource>, new': seq<Resource>) {
    forall n | n in NamesOf(new') && Winner(new', n) in old' :: StableAt(b, slot, old', new', n)
  }

  ghost predicate StableAt(b: Backend, slot: Slot, old': seq<Resource>, new': seq<Resource>, n: string)
    requires n in NamesOf(new')
  {
    && n in NamesOf(old') && Winner(old', n) == Winner(new', n)
    && n !in NamesOf(ToAdd(old', new')) && n !in Removed(b, slot, old', new')
  }

  lemma {:induction false} WinnerSnoc(rs: seq<Resource>, r: Resource, n: string)
    ensures n in NamesOf(rs + [r]) <==> n in NamesOf(rs) || r.name == n
    ensures n in NamesOf(rs) && r.name != n ==> Winner(rs + [r], n) == Winner(rs, n)
    ensures r.name == n ==> Winner(rs + [r], n) == r
  {
    assert r in rs + [r];
    assert forall q :: q in rs ==> q in rs + [r];
    assert (rs + [r])[..|rs|] == rs;
  }

  lemma {:induction false} ToAddSnoc(old': seq<Resource>, rs: seq<Resource>, r: Resource)
    ensures r in old' ==> ToAdd(old', rs + [r]) == ToAdd(old', rs)
    ensures r !in old' ==> ToAdd(old', rs + [r]) == ToAdd(old', rs) + [r]
  {
    assert (rs + [r])[..|rs|] == rs;
  }

  lemma {:induction false} FreshWinnerSnoc(old': seq<Resource>, rest: seq<Resource>, last: Resource, n: string)
    requires n in NamesOf(rest + [last]) && Winner(rest + [last], n) !in old'
    requires last.name != n ==>
               && n in NamesOf(rest) && n in NamesOf(ToAdd(old', rest))
               && Winner(ToAdd(old', rest), n) == Winner(rest, n)
    ensures var add := ToAdd(old', rest + [last]);
            n in NamesOf(add) && Winner(add, n) == Winner(rest + [last], n)
  {
    WinnerSnoc(rest, last, n);
    ToAddSnoc(old', rest, last);
    if last !in old' {
      WinnerSnoc(ToAdd(old', rest), last, n);
    }
  }

  /** A winning resource that was not published before is the winner among the additions. */
  lemma {:induction false} FreshWinner(old': seq<Resource>, new': seq<Resource>, n: string)
    requires n in NamesOf(new') && Winner(new', n) !in old'
    ensures n in NamesOf(ToAdd(old', new')) && Winner(ToAdd(old', new'), n) == Winner(new', n)
  {
    var rest, last := new'[..|new'| - 1], new'[|new'| - 1];
    assert new' == rest + [last];
    if last.name != n {
      WinnerSnoc(rest, last, n);
      FreshWinner(old', rest, n);
    }
    FreshWinnerSnoc(old', rest, last, n);
  }

  /** For one name, a change ends right exactly when the name is stable or its winner is new. */
  lemma {:induction false} DeltaRightAt(b: Backend, slot: Slot, old': seq<Resource>, new': seq<Resource>, n: string)
    ensures var after := Replay(ViewOf(old'), Delta(b, slot, old', new'), slot);
            && (n in ViewOf(new') <==> n in NamesOf(new'))
            && (n !in NamesOf(new') ==> n !in after)
            && (n in NamesOf(new') ==>
                  (n in after && after[n] == ViewOf(new')[n] <==>
                   (Winner(new', n) in old' ==> StableAt(b, slot, old', new', n))))
  {
    DeltaAt(b, slot, old', new', ViewOf(old'), n);
    ViewOfAt(old', n);
    ViewOfAt(new', n);
    if n in NamesOf(new') {
      if Winner(new', n) !in old' {
        FreshWinner(old', new', n);
      }
    } else {
      LostNameRemoved(b, slot, old', new', n);
    }
  }

  lemma {:induction false} LostNameRemoved(b: Backend, slot: Slot, old': seq<Resource>, new': seq<Resource>, n: string)
    requires n !in NamesOf(new')
    ensures n !in NamesOf(ToAdd(old', new'))
    ensures n in NamesOf(old') ==> n in Removed(b, slot, old', new')
  {
    if n in NamesOf(old') {
      var r :| r in old' && r.name == n;
      assert r in Difference(old', new');
    }
  }

  /** For arbitrary lists, a change of either backend and type takes the old view exactly to the new
      one if and only if the change is stable. */
  lemma {:induction false} DeltaExactIff(b: Backend, slot: Slot, old': seq<Resource>, new': seq<Resource>)
    ensures Replay(ViewOf(old'), Delta(b, slot, old', new'), slot) == ViewOf(new') <==> Stable(b, slot, old', new')
  {
    forall n {
      DeltaRightAt(b, slot, old', new', n);
    }
  }

  /** A stable change takes a part of the old view into the new view, too. */
  lemma {:induction false} StablePart(b: Backend, slot: Slot, old': seq<Resource>, new': seq<Resource>, view: View)
    requires Stable(b, slot, old', new') && Submap(view, ViewOf(old'))
    ensures Submap(Replay(view, Delta(b, slot, old', new'), slot), ViewOf(new'))
  {
    var after := Replay(view, Delta(b, slot, old', new'), slot);
    forall n | n in after ensures n in ViewOf(new') && after[n] == ViewOf(new')[n] {
      DeltaAt(b, slot, old', new', view, n);
      DeltaAt(b, slot, old', new', ViewOf(old'), n);
      DeltaRightAt(b, slot, old', new', n);
    }
  }

  /** Lists in which a name determines the resource change stably. */
  lemma {:induction false} CoherentStable(b: Backend, slot: Slot, old': seq<Resource>, new': seq<Resource>)
    requires Coherent(old') && Coherent(new')
    ensures Stable(b, slot, old', new')
  {
    forall n | n in NamesOf(new') && Winner(new', n) in old' ensures StableAt(b, slot, old', new', n) {
      var w := Winner(new', n);
      assert Winner(old', n) == w;
      assert forall r :: r in new' && r.name == n ==> r == w;
      assert forall r :: r in old' && r.name == n ==> r == w;
    }
  }

  /** The failing family: dropping the later of two resources that share a name changes nothing on the
      wire where names are compared, and the proxy keeps the dropped one. */
  lemma {:induction false} RepeatedNameKeepsDropped(b: Backend, slot: Slot, n: string, x: string, y: string)
    requires x != y && ComparesNames(b, slot)
    ensures var old', new' := [Resource(n, x), Resource(n, y)], [Resource(n, x)];
            var after := Replay(ViewOf(old'), Delta(b, slot, old', new'), slot);
            && n in after && after[n] == Resource(n, y)
            && n in ViewOf(new') && ViewOf(new')[n] == Resource(n, x)
  {
    var old', new' := [Resource(n, x), Resource(n, y)], [Resource(n, x)];
    ViewOfAt(old', n);
    ViewOfAt(new', n);
    assert old'[1] in old' && new'[0] in new' && old'[0] == new'[0] && new'[0] in old';
    DeltaAt(b, slot, old', new', ViewOf(old'), n);
  }

  /** Changing the earlier of two resources that share a name puts it in the place of the later one,
      which is published unchanged. */
  lemma {:induction false} RepeatedNameTakesEarlier(b: Backend, slot: Slot, n: string, x: string, x': string, y: string)
    requires x' != x && x' != y && ComparesNames(b, slot)
    ensures var old', new' := [Resource(n, x), Resource(n, y)], [Resource(n, x'), Resource(n, y)];
            var after := Replay(ViewOf(old'), Delta(b, slot, old', new'), slot);
            && n in after && after[n] == Resource(n, x')
            && n in ViewOf(new') && ViewOf(new')[n] == Resource(n, y)
  {
    var old', new' := [Resource(n, x), Resource(n, y)], [Resource(n, x'), Resource(n, y)];
    ViewOfAt(new', n);
    assert new'[0] in new' && new'[1] == old'[1] && new'[1] in old';
    assert forall r :: r in old' ==> r == old'[0] || r == old'[1];
    assert forall r :: r in new' ==> r == new'[0] || r == new'[1];
    var add := ToAdd(old', new');
    assert forall r :: r in add ==> r == new'[0];
    assert new'[0] in add;
    DeltaAt(b, slot, old', new', ViewOf(old'), n);
  }

  // ---------------------------------------------------------------------------------------------
  // Application order of orion deltas
  // ---------------------------------------------------------------------------------------------

  /** A proxy that would apply additions before removals. */
  function ApplyAddsFirst(view: View, r: Response): View {
    RemoveAll(AddAll(view, r.resources), r.removed)
  }

  /** Orion listener deltas never name a resource on both sides, so the order does not matter. */
  lemma {:induction false} ListenerDeltaOrderFree(old': seq<Resource>, new': seq<Resource>, view: View)
    ensures var r := Delta(Orion, Primary, old', new')[0];
            && NamesOf(r.resources) !! (set n | n in r.removed)
            && ApplyAddsFirst(view, r) == Apply(view, r)
  {
    var r := Delta(Orion, Primary, old', new')[0];
    assert NamesOf(r.resources) <= NamesOf(new');
    var one, two := ApplyAddsFirst(view, r), Apply(view, r);
    forall n
      ensures n in one <==> n in two
      ensures n in one && n in two ==> one[n] == two[n]
    {
      AddAllAt(view, r.resources, n);
      AddAllAt(RemoveAll(view, r.removed), r.resources, n);
    }
  }

  /** What additions-first does to one name of a cluster change. */
  lemma {:induction false} ClusterAddsFirstAt(old': seq<Resource>, new': seq<Resource>, n: string)
    requires Coherent(old') && Coherent(new')
    ensures var after := ApplyAddsFirst(ViewOf(old'), Delta(Orion, Secondary, old', new')[0]);
            && (n in after <==> n !in NamesOf(Difference(old', new')) && n in NamesOf(old') + NamesOf(new'))
            && (n in after && n in NamesOf(new') ==> after[n] == Winner(new', n))
            && (n in ViewOf(new') <==> n in NamesOf(new'))
            && (n in NamesOf(new') ==> ViewOf(new')[n] == Winner(new', n))
  {
    AddAllAt(ViewOf(old'), ToAdd(old', new'), n);
    ViewOfAt(old', n);
    ViewOfAt(new', n);
  }

  ghost predicate KeptUnchanged(old': seq<Resource>, new': seq<Resource>) {
    forall r, q :: r in old' && q in new' && r.name == q.name ==> r == q
  }

  lemma {:induction false} KeptUnchangedNames(old': seq<Resource>, new': seq<Resource>)
    ensures KeptUnchanged(old', new') ==> NamesOf(Difference(old', new')) == NamesOf(old') - NamesOf(new')
    ensures Coherent(new') && !KeptUnchanged(old', new') ==> NamesOf(Difference(old', new')) * NamesOf(new') != {}
  {
    if KeptUnchanged(old', new') {
      forall n ensures n in NamesOf(Difference(old', new')) <==> n in NamesOf(old') - NamesOf(new') {
        if n in NamesOf(old') - NamesOf(new') {
          var r :| r in old' && r.name == n;
          assert r in Difference(old', new');
        }
      }
    } else if Coherent(new') {
      var r, q :| r in old' && q in new' && r.name == q.name && r != q;
      assert r in Difference(old', new');
      assert r.name in NamesOf(Difference(old', new')) * NamesOf(new');
    }
  }

  /** Orion cluster deltas name a changed cluster on both sides: additions-first reaches the new
      view exactly when no kept cluster changed its body. */
  lemma {:induction false} ClusterDeltaAddsFirstIff(old': seq<Resource>, new': seq<Resource>)
    requires Coherent(old') && Coherent(new')
    ensures ApplyAddsFirst(ViewOf(old'), Delta(Orion, Secondary, old', new')[0]) == ViewOf(new')
            <==> KeptUnchanged(old', new')
  {
    KeptUnchangedNames(old', new');
    forall n {
      ClusterAddsFirstAt(old', new', n);
    }
  }
}
