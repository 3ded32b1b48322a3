/**
 The value that a reference resolver holds for one key: polls answer with a value or with none, and
 bookkeeping may drop what is held. A value that differs from the held one only in its metadata does not
 take its place.
 */
module PolledValues {
  import opened Prelude

  /** A fetched object: its metadata, which is ignored in comparisons, and everything else. */
  datatype Value = Value(meta: string, body: string)

  /** What an event means for the key. */
  datatype Mark = Untouched | Dropped | Answered(result: Option<Value>)

  function Lookup(resolved: map<ResourceKey, Value>, key: ResourceKey): Option<Value> {
    if key in resolved then Some(resolved[key]) else None
  }

  function After(held: Option<Value>, m: Mark): Option<Value> {
    match m
    case Untouched => held
    case Dropped => None
    case Answered(None) => None
    case Answered(Some(v)) => if held.Some? && held.value.body == v.body then held else Some(v)
  }

  function HeldAfter(ms: seq<Mark>): Option<Value> {
    if ms == [] then None else After(HeldAfter(ms[..|ms| - 1]), ms[|ms| - 1])
  }

  predicate Gives(m: Mark) {
    m.Answered? && m.result.Some?
  }

  /** The last poll answered with a value, and nothing was dropped since. */
  ghost predicate LastGiven(ms: seq<Mark>, i: nat) {
    i < |ms| && Gives(ms[i]) && forall j :: i < j < |ms| ==> ms[j].Untouched?
  }

  /** The mark leaves a held value with the body as it is. */
  predicate Keeps(m: Mark, body: string) {
    m.Untouched? || (Gives(m) && m.result.value.body == body)
  }

  /** The poll at `i` answered with a value, and since then every poll with one of the same body, and
      nothing was dropped. */
  ghost predicate SameSince(ms: seq<Mark>, i: nat) {
    i < |ms| && Gives(ms[i]) && forall j :: i < j < |ms| ==> Keeps(ms[j], ms[i].result.value.body)
  }

  ghost predicate FirstSame(ms: seq<Mark>, i: nat) {
    SameSince(ms, i) && forall j: nat :: j < i ==> !SameSince(ms, j)
  }

  lemma {:induction false} SinceSnoc(ms: seq<Mark>, i: nat)
    requires ms != []
    ensures var n, last := |ms| - 1, ms[|ms| - 1];
            && (LastGiven(ms, i) <==> if i == n then Gives(last) else LastGiven(ms[..n], i) && last.Untouched?)
            && (SameSince(ms, i) <==>
                if i == n then Gives(last) else SameSince(ms[..n], i) && Keeps(last, ms[i].result.value.body))
  {
    var init := ms[..|ms| - 1];
    assert forall j :: 0 <= j < |init| ==> init[j] == ms[j];
  }

  lemma {:induction false} FirstExists(ms: seq<Mark>, i: nat) returns (first: nat)
    requires SameSince(ms, i)
    ensures FirstSame(ms, first)
    decreases i
  {
    if FirstSame(ms, i) {
      first := i;
    } else {
      var j: nat :| j < i && SameSince(ms, j);
      first := FirstExists(ms, j);
    }
  }

  lemma {:induction false} FirstSnoc(ms: seq<Mark>, i: nat)
    requires ms != [] && i < |ms| - 1 && FirstSame(ms, i)
    ensures FirstSame(ms[..|ms| - 1], i)
  {
    var init := ms[..|ms| - 1];
    SinceSnoc(ms, i);
    forall j: nat | j < i ensures !SameSince(init, j) {
      SinceSnoc(ms, j);
    }
  }

  /** What the marks say about the value held. */
  ghost predicate Described(ms: seq<Mark>, held: Option<Value>) {
    && (held.Some? ==> exists i: nat :: FirstSame(ms, i))
    && (forall i: nat :: SameSince(ms, i) ==> held.Some? && held.value.body == ms[i].result.value.body)
    && (forall i: nat :: FirstSame(ms, i) ==> held == Some(ms[i].result.value))
  }

  lemma {:induction false} DescribedSnoc(ms: seq<Mark>, held: Option<Value>)
    requires ms != [] && Described(ms[..|ms| - 1], held)
    ensures Described(ms, After(held, ms[|ms| - 1]))
  {
    var n, init := |ms| - 1, ms[..|ms| - 1];
    var held' := After(held, ms[n]);
    forall i: nat | SameSince(ms, i)
      ensures held'.Some? && held'.value.body == ms[i].result.value.body
    {
      SinceSnoc(ms, i);
    }
    forall i: nat | FirstSame(ms, i) ensures held' == Some(ms[i].result.value) {
      SinceSnoc(ms, i);
      if i < n {
        FirstSnoc(ms, i);
      } else if held.Some? && held.value.body == ms[n].result.value.body {
        var j: nat :| FirstSame(init, j);
        SinceSnoc(ms, j);
        assert false;
      }
    }
    if held'.Some? {
      var i: nat;
      if held' == held {
        i :| FirstSame(init, i);
      } else {
        i := n;
      }
      SinceSnoc(ms, i);
      var first := FirstExists(ms, i);
    }
  }

  /** A value is held exactly if the last poll answered with one and nothing was dropped since. Its body is
      the one of that poll; as a whole it is that of the first poll since which the body is the same. */
  lemma {:induction false} HeldIs(ms: seq<Mark>)
    ensures HeldAfter(ms).Some? <==> exists i: nat :: LastGiven(ms, i)
    ensures forall i: nat :: LastGiven(ms, i) ==> HeldAfter(ms).value.body == ms[i].result.value.body
    ensures HeldAfter(ms).Some? <==> exists i: nat :: FirstSame(ms, i)
    ensures forall i: nat :: FirstSame(ms, i) ==> HeldAfter(ms) == Some(ms[i].result.value)
  {
    HeldDescribed(ms);
    HeldLast(ms);
    assert forall i: nat :: LastGiven(ms, i) ==> SameSince(ms, i);
  }

  lemma {:induction false} HeldDescribed(ms: seq<Mark>)
    ensures Described(ms, HeldAfter(ms))
  {
    if ms != [] {
      HeldDescribed(ms[..|ms| - 1]);
      DescribedSnoc(ms, HeldAfter(ms[..|ms| - 1]));
    }
  }

  lemma {:induction false} HeldLast(ms: seq<Mark>)
    ensures HeldAfter(ms).Some? <==> exists i: nat :: LastGiven(ms, i)
  {
    if ms != [] {
      var n, init := |ms| - 1, ms[..|ms| - 1];
      HeldLast(init);
      if i: nat :| LastGiven(ms, i) {
        SinceSnoc(ms, i);
      }
      if i: nat :| LastGiven(init, i) {
        SinceSnoc(ms, i);
      }
      SinceSnoc(ms, n);
    }
  }
}
