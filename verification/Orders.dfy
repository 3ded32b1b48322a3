/** Three-way comparison results, and the comparisons of the Rust standard library that the model
    needs. A `string` stands for its UTF-8 bytes, one character per byte. */
module Orders {
  import opened Prelude

  datatype Ordering = Less | Equal | Greater

  function Flip(o: Ordering): Ordering {
    match o
    case Less => Greater
    case Equal => Equal
    case Greater => Less
  }

  /** The first comparison, or the second when the first is even. */
  function Then(first: Ordering, second: Ordering): Ordering {
    if first.Equal? then second else first
  }

  function CompareInt(x: int, y: int): Ordering {
    if x < y then Less else if x == y then Equal else Greater
  }

  function CompareString(x: string, y: string): Ordering {
    if x == [] then (if y == [] then Equal else Less)
    else if y == [] then Greater
    else Then(CompareInt(x[0] as int, y[0] as int), CompareString(x[1..], y[1..]))
  }

  /** `None` comes first. */
  function CompareOptional(x: Option<string>, y: Option<string>): Ordering {
    match (x, y)
    case (None, None) => Equal
    case (None, Some(_)) => Less
    case (Some(_), None) => Greater
    case (Some(a), Some(b)) => CompareString(a, b)
  }

  function CompareKey(x: ResourceKey, y: ResourceKey): Ordering {
    Then(CompareString(x.group, y.group),
         Then(CompareString(x.namespace, y.namespace),
              Then(CompareString(x.name, y.name), CompareString(x.kind, y.kind))))
  }

  /** `xz` is what transitivity demands of comparisons `xy` and `yz`. */
  predicate Chains(xy: Ordering, yz: Ordering, xz: Ordering) {
    && (!xy.Greater? && !yz.Greater? ==> xz == Then(xy, yz))
    && (!xy.Less? && !yz.Less? ==> xz == Then(xy, yz))
  }

  ghost predicate TotalPreorder<T(!new)>(cmp: (T, T) -> Ordering) {
    && (forall x, y :: cmp(y, x) == Flip(cmp(x, y)))
    && (forall x, y, z :: Chains(cmp(x, y), cmp(y, z), cmp(x, z)))
  }

  lemma {:induction false} StringLaws(x: string, y: string, z: string)
    ensures CompareString(y, x) == Flip(CompareString(x, y))
    ensures CompareString(x, y).Equal? <==> x == y
    ensures Chains(CompareString(x, y), CompareString(y, z), CompareString(x, z))
  {
    if x != [] && y != [] {
      StringLaws(x[1..], y[1..], if z == [] then [] else z[1..]);
      assert x == [x[0]] + x[1..] && y == [y[0]] + y[1..];
    }
  }

  lemma {:induction false} OptionalLaws(x: Option<string>, y: Option<string>, z: Option<string>)
    ensures CompareOptional(y, x) == Flip(CompareOptional(x, y))
    ensures CompareOptional(x, y).Equal? <==> x == y
    ensures Chains(CompareOptional(x, y), CompareOptional(y, z), CompareOptional(x, z))
  {
    if x.Some? && y.Some? {
      StringLaws(x.value, y.value, if z.Some? then z.value else []);
    }
  }

  /** Keys are totally ordered: only equal keys compare equal. */
  lemma {:induction false} KeyLaws(x: ResourceKey, y: ResourceKey, z: ResourceKey)
    ensures CompareKey(y, x) == Flip(CompareKey(x, y))
    ensures CompareKey(x, y).Equal? <==> x == y
    ensures Chains(CompareKey(x, y), CompareKey(y, z), CompareKey(x, z))
  {
    StringLaws(x.group, y.group, z.group);
    StringLaws(x.namespace, y.namespace, z.namespace);
    StringLaws(x.name, y.name, z.name);
    StringLaws(x.kind, y.kind, z.kind);
  }

  /** The strings agree up to `n`, where `x` ends first or has the smaller character. */
  ghost predicate DiffersAt(x: string, y: string, n: nat) {
    && n <= |x| && n < |y| && x[..n] == y[..n]
    && (n == |x| || x[n] < y[n])
  }

  /** The order of strings is the lexicographic one. */
  ghost predicate Before(x: string, y: string) {
    exists n: nat :: DiffersAt(x, y, n)
  }

  lemma {:induction false} DiffersTail(x: string, y: string, n: nat)
    requires x != [] && y != [] && x[0] == y[0]
    ensures DiffersAt(x, y, n + 1) <==> DiffersAt(x[1..], y[1..], n)
  {
    if n <= |x| - 1 && n < |y| - 1 {
      assert x[..n + 1] == [x[0]] + x[1..][..n] && y[..n + 1] == [y[0]] + y[1..][..n];
      if x[..n + 1] == y[..n + 1] {
        assert x[1..][..n] == x[..n + 1][1..] && y[1..][..n] == y[..n + 1][1..];
      }
    }
  }

  lemma {:induction false} StringOrderIs(x: string, y: string)
    ensures CompareString(x, y).Less? <==> Before(x, y)
  {
    if y != [] && (x == [] || x[0] < y[0]) {
      assert DiffersAt(x, y, 0);
    } else if x != [] && y != [] && x[0] == y[0] {
      StringOrderIs(x[1..], y[1..]);
      if n: nat :| DiffersAt(x[1..], y[1..], n) {
        DiffersTail(x, y, n);
      }
      if n: nat :| DiffersAt(x, y, n) {
        assert n > 0;
        DiffersTail(x, y, n - 1);
      }
    }
  }

  /** Keys are ordered by group, then namespace, then name, then kind. */
  lemma {:induction false} KeyOrderIs(x: ResourceKey, y: ResourceKey)
    ensures CompareKey(x, y).Less? <==>
            || Before(x.group, y.group)
            || (x.group == y.group
                && (|| Before(x.namespace, y.namespace)
                    || (x.namespace == y.namespace
                        && (Before(x.name, y.name) || (x.name == y.name && Before(x.kind, y.kind))))))
  {
    StringOrderIs(x.group, y.group);
    StringOrderIs(x.namespace, y.namespace);
    StringOrderIs(x.name, y.name);
    StringOrderIs(x.kind, y.kind);
    StringLaws(x.group, y.group, "");
    StringLaws(x.namespace, y.namespace, "");
    StringLaws(x.name, y.name, "");
  }

  /** None comes before every string. */
  lemma {:induction false} OptionalOrderIs(x: Option<string>, y: Option<string>)
    ensures CompareOptional(x, y).Less? <==> y.Some? && (x.None? || Before(x.value, y.value))
  {
    if x.Some? && y.Some? {
      StringOrderIs(x.value, y.value);
    }
  }
}
