/**
 Stable sorting and first-match selection, for any total preorder. `StableSort` is characterised
 independently of any algorithm by `StableSortUnique`, so it is what a stable library sort returns.
 */
module StableSorting {
  import opened Prelude
  import opened Orders

  ghost predicate Sorted<T>(cmp: (T, T) -> Ordering, s: seq<T>) {
    forall i, j :: 0 <= i < j < |s| ==> !cmp(s[i], s[j]).Greater?
  }

  /** Inserts before the first element that is not smaller. */
  function Insert<T>(cmp: (T, T) -> Ordering, x: T, s: seq<T>): seq<T> {
    if s == [] || !cmp(x, s[0]).Greater? then [x] + s
    else [s[0]] + Insert(cmp, x, s[1..])
  }

  function StableSort<T>(cmp: (T, T) -> Ordering, s: seq<T>): seq<T> {
    if s == [] then [] else Insert(cmp, s[0], StableSort(cmp, s[1..]))
  }

  function Filter<T>(s: seq<T>, p: T -> bool): seq<T> {
    if s == [] then []
    else (if p(s[0]) then [s[0]] else []) + Filter(s[1..], p)
  }

  function FirstMatch<T>(s: seq<T>, p: T -> bool): Option<T> {
    if s == [] then None
    else if p(s[0]) then Some(s[0])
    else FirstMatch(s[1..], p)
  }

  lemma {:induction false} InsertSorted<T(!new)>(cmp: (T, T) -> Ordering, x: T, s: seq<T>)
    requires TotalPreorder(cmp) && Sorted(cmp, s)
    ensures Sorted(cmp, Insert(cmp, x, s))
  {
    if s == [] {
    } else if !cmp(x, s[0]).Greater? {
      forall j | 0 <= j < |s| ensures !cmp(x, s[j]).Greater? {
        assert j > 0 ==> !cmp(s[0], s[j]).Greater?;
        assert Chains(cmp(x, s[0]), cmp(s[0], s[j]), cmp(x, s[j]));
      }
    } else {
      var rest := Insert(cmp, x, s[1..]);
      InsertSorted(cmp, x, s[1..]);
      assert cmp(s[0], x) == Flip(cmp(x, s[0]));
      forall j | 0 <= j < |rest| ensures !cmp(s[0], rest[j]).Greater? {
        InsertedAt(cmp, x, s[1..], j);
      }
    }
  }

  lemma {:induction false} InsertedAt<T>(cmp: (T, T) -> Ordering, x: T, s: seq<T>, j: nat)
    requires j < |Insert(cmp, x, s)|
    ensures Insert(cmp, x, s)[j] == x || Insert(cmp, x, s)[j] in s
  {
    if s != [] && cmp(x, s[0]).Greater? && j > 0 {
      InsertedAt(cmp, x, s[1..], j - 1);
    }
  }

  lemma {:induction false} InsertMultiset<T>(cmp: (T, T) -> Ordering, x: T, s: seq<T>)
    ensures multiset(Insert(cmp, x, s)) == multiset(s) + multiset{x}
  {
    if s != [] {
      assert s == [s[0]] + s[1..];
      InsertMultiset(cmp, x, s[1..]);
    }
  }

  lemma {:induction false} SortSorted<T(!new)>(cmp: (T, T) -> Ordering, s: seq<T>)
    requires TotalPreorder(cmp)
    ensures Sorted(cmp, StableSort(cmp, s))
    ensures multiset(StableSort(cmp, s)) == multiset(s)
  {
    if s != [] {
      assert s == [s[0]] + s[1..];
      SortSorted(cmp, s[1..]);
      InsertSorted(cmp, s[0], StableSort(cmp, s[1..]));
      InsertMultiset(cmp, s[0], StableSort(cmp, s[1..]));
    }
  }

  lemma {:induction false} FilterCons<T>(x: T, s: seq<T>, p: T -> bool)
    ensures p(x) ==> Filter([x] + s, p) == [x] + Filter(s, p)
    ensures !p(x) ==> Filter([x] + s, p) == Filter(s, p)
  {
    assert ([x] + s)[1..] == s;
  }

  lemma {:induction false} FilterTail<T>(s: seq<T>, p: T -> bool)
    requires s != []
    ensures p(s[0]) ==> Filter(s, p) == [s[0]] + Filter(s[1..], p)
    ensures !p(s[0]) ==> Filter(s, p) == Filter(s[1..], p)
  {
  }

  lemma {:induction false} SortCons<T>(cmp: (T, T) -> Ordering, x: T, s: seq<T>)
    ensures StableSort(cmp, [x] + s) == Insert(cmp, x, StableSort(cmp, s))
  {
    assert ([x] + s)[1..] == s;
  }

  lemma {:induction false} InsertCons<T>(cmp: (T, T) -> Ordering, x: T, y: T, s: seq<T>)
    requires cmp(x, y).Greater?
    ensures Insert(cmp, x, [y] + s) == [y] + Insert(cmp, x, s)
  {
    assert ([y] + s)[1..] == s;
  }

  lemma {:induction false} FilterIn<T>(s: seq<T>, p: T -> bool)
    ensures forall x :: x in Filter(s, p) <==> x in s && p(x)
  {
    if s != [] {
      assert s == [s[0]] + s[1..];
      FilterIn(s[1..], p);
    }
  }

  lemma {:induction false} FilterHas<T>(s: seq<T>, p: T -> bool, x: T)
    ensures x in Filter(s, p) <==> x in s && p(x)
  {
    FilterIn(s, p);
  }

  lemma {:induction false} SortedTail<T>(cmp: (T, T) -> Ordering, s: seq<T>)
    requires Sorted(cmp, s) && s != []
    ensures Sorted(cmp, s[1..])
  {
  }

  // ---------------------------------------------------------------------------------------------
  // Filtering and sorting commute
  // ---------------------------------------------------------------------------------------------

  lemma {:induction false} InsertFront<T(!new)>(cmp: (T, T) -> Ordering, x: T, s: seq<T>)
    requires forall y :: y in s ==> !cmp(x, y).Greater?
    ensures Insert(cmp, x, s) == [x] + s
  {
  }

  lemma {:induction false} FilterInsert<T(!new)>(cmp: (T, T) -> Ordering, x: T, s: seq<T>, p: T -> bool)
    requires TotalPreorder(cmp) && Sorted(cmp, s)
    ensures Filter(Insert(cmp, x, s), p) == if p(x) then Insert(cmp, x, Filter(s, p)) else Filter(s, p)
  {
    if s == [] || !cmp(x, s[0]).Greater? {
      FilterCons(x, s, p);
      FilterIn(s, p);
      forall y | y in s ensures !cmp(x, y).Greater? {
        var j :| 0 <= j < |s| && s[j] == y;
        assert j > 0 ==> !cmp(s[0], y).Greater?;
        assert Chains(cmp(x, s[0]), cmp(s[0], y), cmp(x, y));
      }
      InsertFront(cmp, x, Filter(s, p));
    } else {
      FilterCons(s[0], Insert(cmp, x, s[1..]), p);
      SortedTail(cmp, s);
      FilterInsert(cmp, x, s[1..], p);
      FilterTail(s, p);
      if p(s[0]) {
        InsertCons(cmp, x, s[0], Filter(s[1..], p));
      }
    }
  }

  /** Selecting after a stable sort is the same as sorting the selection. */
  lemma {:induction false} FilterSortCommute<T(!new)>(cmp: (T, T) -> Ordering, s: seq<T>, p: T -> bool)
    requires TotalPreorder(cmp)
    ensures Filter(StableSort(cmp, s), p) == StableSort(cmp, Filter(s, p))
  {
    if s != [] {
      FilterSortCommute(cmp, s[1..], p);
      SortSorted(cmp, s[1..]);
      FilterInsert(cmp, s[0], StableSort(cmp, s[1..]), p);
      FilterTail(s, p);
      if p(s[0]) {
        SortCons(cmp, s[0], Filter(s[1..], p));
      }
    }
  }

  // ---------------------------------------------------------------------------------------------
  // The first match is the best match
  // ---------------------------------------------------------------------------------------------

  /** The match at `i` precedes every other match, ties going to the earlier position. */
  ghost predicate IsBest<T>(cmp: (T, T) -> Ordering, s: seq<T>, p: T -> bool, i: nat) {
    && i < |s| && p(s[i])
    && forall j :: 0 <= j < |s| && p(s[j]) ==>
         cmp(s[i], s[j]).Less? || (cmp(s[i], s[j]).Equal? && i <= j)
  }

  lemma {:induction false} BestUnique<T(!new)>(cmp: (T, T) -> Ordering, s: seq<T>, p: T -> bool, i: nat, j: nat)
    requires TotalPreorder(cmp)
    requires IsBest(cmp, s, p, i) && IsBest(cmp, s, p, j)
    ensures i == j
  {
    assert cmp(s[j], s[i]) == Flip(cmp(s[i], s[j]));
  }

  lemma {:induction false} FirstMatchIn<T>(s: seq<T>, p: T -> bool)
    ensures FirstMatch(s, p).None? <==> forall x :: x in s ==> !p(x)
    ensures FirstMatch(s, p).Some? ==> FirstMatch(s, p).value in s && p(FirstMatch(s, p).value)
  {
    if s != [] {
      assert s == [s[0]] + s[1..];
      FirstMatchIn(s[1..], p);
    }
  }

  lemma {:induction false} FirstMatchInsert<T(!new)>(cmp: (T, T) -> Ordering, x: T, s: seq<T>, p: T -> bool)
    requires TotalPreorder(cmp) && Sorted(cmp, s)
    ensures FirstMatch(Insert(cmp, x, s), p) ==
            match FirstMatch(s, p)
            case None => if p(x) then Some(x) else None
            case Some(r) => if p(x) && !cmp(x, r).Greater? then Some(x) else Some(r)
  {
    FirstMatchIn(s, p);
    if s == [] || !cmp(x, s[0]).Greater? {
      assert ([x] + s)[1..] == s;
      if FirstMatch(s, p).Some? {
        var r := FirstMatch(s, p).value;
        var j :| 0 <= j < |s| && s[j] == r;
        assert j > 0 ==> !cmp(s[0], r).Greater?;
        assert Chains(cmp(x, s[0]), cmp(s[0], r), cmp(x, r));
      }
    } else {
      var rest := Insert(cmp, x, s[1..]);
      assert ([s[0]] + rest)[1..] == rest;
      SortedTail(cmp, s);
      FirstMatchInsert(cmp, x, s[1..], p);
    }
  }

  /** For any list and any predicate, the first match of the stably sorted list is the best match
      of the unsorted one; there is none exactly when nothing matches. */
  lemma {:induction false} FirstMatchIsBest<T(!new)>(cmp: (T, T) -> Ordering, s: seq<T>, p: T -> bool)
    requires TotalPreorder(cmp)
    ensures match FirstMatch(StableSort(cmp, s), p)
            case None => forall x :: x in s ==> !p(x)
            case Some(r) => exists i: nat :: IsBest(cmp, s, p, i) && s[i] == r
  {
    if s != [] {
      var tail := s[1..];
      assert s == [s[0]] + tail;
      FirstMatchIsBest(cmp, tail, p);
      SortSorted(cmp, tail);
      FirstMatchInsert(cmp, s[0], StableSort(cmp, tail), p);
      var m := FirstMatch(StableSort(cmp, tail), p);
      if m.None? {
        if p(s[0]) {
          assert cmp(s[0], s[0]) == Flip(cmp(s[0], s[0]));
          assert IsBest(cmp, s, p, 0);
        }
      } else {
        var i: nat :| IsBest(cmp, tail, p, i) && tail[i] == m.value;
        BestWithHead(cmp, s, p, i);
      }
    }
  }

  /** There is only one best position, so whatever is best is what the sorted list yields first. */
  lemma {:induction false} BestIsFirstMatch<T(!new)>(cmp: (T, T) -> Ordering, s: seq<T>, p: T -> bool, i: nat)
    requires TotalPreorder(cmp) && IsBest(cmp, s, p, i)
    ensures FirstMatch(StableSort(cmp, s), p) == Some(s[i])
  {
    FirstMatchIsBest(cmp, s, p);
    var j: nat :| IsBest(cmp, s, p, j) && FirstMatch(StableSort(cmp, s), p) == Some(s[j]);
    BestUnique(cmp, s, p, i, j);
  }

  lemma {:induction false} BestWithHead<T(!new)>(cmp: (T, T) -> Ordering, s: seq<T>, p: T -> bool, i: nat)
    requires TotalPreorder(cmp) && s != [] && IsBest(cmp, s[1..], p, i)
    ensures IsBest(cmp, s, p, if p(s[0]) && !cmp(s[0], s[1..][i]).Greater? then 0 else i + 1)
  {
    var tail, r := s[1..], s[1..][i];
    assert cmp(s[0], s[0]) == Flip(cmp(s[0], s[0]));
    assert cmp(r, s[0]) == Flip(cmp(s[0], r));
    forall j | 0 < j < |s| && p(s[j])
      ensures cmp(r, s[j]).Less? || (cmp(r, s[j]).Equal? && i + 1 <= j)
      ensures !cmp(s[0], r).Greater? ==> !cmp(s[0], s[j]).Greater?
    {
      assert s[j] == tail[j - 1];
      assert Chains(cmp(s[0], r), cmp(r, s[j]), cmp(s[0], s[j]));
    }
  }

  // ---------------------------------------------------------------------------------------------
  // Stable sorting has one result
  // ---------------------------------------------------------------------------------------------

  /** The elements that compare equal to `x`, in the order of the list. */
  function ClassOf<T>(cmp: (T, T) -> Ordering, s: seq<T>, x: T): seq<T> {
    Filter(s, (y: T) => cmp(x, y).Equal?)
  }

  lemma {:induction false} ClassTail<T>(cmp: (T, T) -> Ordering, s: seq<T>, x: T)
    requires s != []
    ensures cmp(x, s[0]).Equal? ==> ClassOf(cmp, s, x) == [s[0]] + ClassOf(cmp, s[1..], x)
    ensures cmp(x, s[0]).Equal? ==> ClassOf(cmp, s[1..], x) == ClassOf(cmp, s, x)[1..]
    ensures !cmp(x, s[0]).Equal? ==> ClassOf(cmp, s, x) == ClassOf(cmp, s[1..], x)
  {
  }

  lemma {:induction false} SameClassesSameList<T(!new)>(cmp: (T, T) -> Ordering, s: seq<T>, t: seq<T>)
    requires TotalPreorder(cmp) && Sorted(cmp, s) && Sorted(cmp, t)
    requires forall x :: ClassOf(cmp, s, x) == ClassOf(cmp, t, x)
    ensures s == t
  {
    if s == [] {
      if t != [] {
        HeadIn(cmp, t, s);
      }
    } else {
      HeadIn(cmp, s, t);
      HeadIn(cmp, t, s);
      assert cmp(s[0], t[0]).Equal?;
      assert cmp(s[0], s[0]) == Flip(cmp(s[0], s[0]));
      assert ClassOf(cmp, s, s[0])[0] == s[0] && ClassOf(cmp, t, s[0])[0] == t[0];
      forall x ensures ClassOf(cmp, s[1..], x) == ClassOf(cmp, t[1..], x) {
        ClassTail(cmp, s, x);
        ClassTail(cmp, t, x);
        assert ClassOf(cmp, s, x) == ClassOf(cmp, t, x);
      }
      SortedTail(cmp, s);
      SortedTail(cmp, t);
      SameClassesSameList(cmp, s[1..], t[1..]);
      assert s == [s[0]] + s[1..] && t == [t[0]] + t[1..];
    }
  }

  lemma {:induction false} HeadIn<T(!new)>(cmp: (T, T) -> Ordering, s: seq<T>, t: seq<T>)
    requires TotalPreorder(cmp) && Sorted(cmp, t) && s != []
    requires forall x :: ClassOf(cmp, s, x) == ClassOf(cmp, t, x)
    ensures t != [] && !cmp(t[0], s[0]).Greater?
  {
    var x := s[0];
    assert cmp(x, x) == Flip(cmp(x, x));
    var p := (y: T) => cmp(x, y).Equal?;
    FilterIn(s, p);
    FilterIn(t, p);
    assert x in ClassOf(cmp, s, x);
    assert ClassOf(cmp, s, x) == ClassOf(cmp, t, x);
    var k :| 0 <= k < |t| && t[k] == x;
    assert k > 0 ==> !cmp(t[0], t[k]).Greater?;
  }

  /** Any sorted rearrangement that keeps every class of equal elements in order is `StableSort`. */
  lemma {:induction false} StableSortUnique<T(!new)>(cmp: (T, T) -> Ordering, s: seq<T>, out: seq<T>)
    requires TotalPreorder(cmp)
    ensures out == StableSort(cmp, s)
            <==> Sorted(cmp, out) && forall x :: ClassOf(cmp, out, x) == ClassOf(cmp, s, x)
  {
    SortSorted(cmp, s);
    forall x ensures ClassOf(cmp, StableSort(cmp, s), x) == ClassOf(cmp, s, x) {
      var p := (y: T) => cmp(x, y).Equal?;
      FilterSortCommute(cmp, s, p);
      AlreadySorted(cmp, x, s);
    }
    if Sorted(cmp, out) && forall x :: ClassOf(cmp, out, x) == ClassOf(cmp, s, x) {
      SameClassesSameList(cmp, out, StableSort(cmp, s));
    }
  }

  /** One class is left as it is. */
  lemma {:induction false} AlreadySorted<T(!new)>(cmp: (T, T) -> Ordering, x: T, s: seq<T>)
    requires TotalPreorder(cmp)
    ensures StableSort(cmp, ClassOf(cmp, s, x)) == ClassOf(cmp, s, x)
  {
    if s != [] {
      AlreadySorted(cmp, x, s[1..]);
      ClassTail(cmp, s, x);
      var rest := ClassOf(cmp, s[1..], x);
      FilterIn(s[1..], (y: T) => cmp(x, y).Equal?);
      if cmp(x, s[0]).Equal? {
        forall y | y in rest ensures !cmp(s[0], y).Greater? {
          assert cmp(s[0], x) == Flip(cmp(x, s[0]));
          assert Chains(cmp(s[0], x), cmp(x, y), cmp(s[0], y));
        }
        InsertFront(cmp, s[0], rest);
        SortCons(cmp, s[0], rest);
      }
    }
  }

  // ---------------------------------------------------------------------------------------------
  // Removing repetitions from a sorted list
  // ---------------------------------------------------------------------------------------------

  /** Keeps the first of every run of equal elements. */
  function KeepFirst<T>(cmp: (T, T) -> Ordering, s: seq<T>): seq<T>
    decreases |s|
  {
    if |s| < 2 then s
    else if cmp(s[0], s[1]).Equal? then KeepFirst(cmp, [s[0]] + s[2..])
    else [s[0]] + KeepFirst(cmp, s[1..])
  }

  /** Keeps the last of every run of equal elements. */
  function KeepLast<T>(cmp: (T, T) -> Ordering, s: seq<T>): seq<T> {
    if |s| < 2 then s
    else if cmp(s[0], s[1]).Equal? then KeepLast(cmp, s[1..])
    else [s[0]] + KeepLast(cmp, s[1..])
  }

  ghost predicate StrictlySorted<T>(cmp: (T, T) -> Ordering, s: seq<T>) {
    forall i, j :: 0 <= i < j < |s| ==> cmp(s[i], s[j]).Less?
  }

  ghost predicate Covered<T>(cmp: (T, T) -> Ordering, out: seq<T>, x: T) {
    exists y :: y in out && cmp(x, y).Equal?
  }

  /** Every class of `s` has an element in `out`, and nothing new appears. */
  ghost predicate Represents<T>(cmp: (T, T) -> Ordering, out: seq<T>, s: seq<T>) {
    && (forall x :: x in out ==> x in s)
    && (forall x :: x in s ==> Covered(cmp, out, x))
  }

  lemma {:induction false} SelfEqual<T(!new)>(cmp: (T, T) -> Ordering, x: T)
    requires TotalPreorder(cmp)
    ensures cmp(x, x).Equal?
  {
    assert cmp(x, x) == Flip(cmp(x, x));
  }

  lemma {:induction false} PrependStrict<T(!new)>(cmp: (T, T) -> Ordering, s: seq<T>, out: seq<T>)
    requires TotalPreorder(cmp) && Sorted(cmp, s) && |s| > 1 && !cmp(s[0], s[1]).Equal?
    requires StrictlySorted(cmp, out) && forall x :: x in out ==> x in s[1..]
    ensures StrictlySorted(cmp, [s[0]] + out)
  {
    forall k | 0 <= k < |out| ensures cmp(s[0], out[k]).Less? {
      assert out[k] in out;
      var j :| 1 <= j < |s| && s[j] == out[k];
      SelfEqual(cmp, s[1]);
      assert !cmp(s[1], s[j]).Greater?;
      assert Chains(cmp(s[0], s[1]), cmp(s[1], s[j]), cmp(s[0], s[j]));
    }
  }

  lemma {:induction false} PrependRepresents<T(!new)>(cmp: (T, T) -> Ordering, x: T, rest: seq<T>, out: seq<T>)
    requires TotalPreorder(cmp) && Represents(cmp, out, rest)
    ensures Represents(cmp, [x] + out, [x] + rest)
  {
    forall z | z in [x] + rest ensures Covered(cmp, [x] + out, z) {
      if z == x {
        SelfEqual(cmp, x);
        assert x in [x] + out;
      } else {
        assert z in rest && Covered(cmp, out, z);
        var y :| y in out && cmp(z, y).Equal?;
        assert y in [x] + out;
      }
    }
  }

  /** An element equal to a covered one is covered. */
  lemma {:induction false} EqualCovered<T(!new)>(cmp: (T, T) -> Ordering, out: seq<T>, x: T, z: T)
    requires TotalPreorder(cmp) && cmp(x, z).Equal? && Covered(cmp, out, z)
    ensures Covered(cmp, out, x)
  {
    var y :| y in out && cmp(z, y).Equal?;
    assert Chains(cmp(x, z), cmp(z, y), cmp(x, y));
  }

  lemma {:induction false} KeepFirstStrict<T(!new)>(cmp: (T, T) -> Ordering, s: seq<T>)
    requires TotalPreorder(cmp) && Sorted(cmp, s)
    ensures StrictlySorted(cmp, KeepFirst(cmp, s)) && Represents(cmp, KeepFirst(cmp, s), s)
    decreases |s|
  {
    if |s| < 2 {
      forall x | x in s ensures Covered(cmp, s, x) {
        SelfEqual(cmp, x);
      }
    } else if cmp(s[0], s[1]).Equal? {
      var t := [s[0]] + s[2..];
      assert s == [s[0], s[1]] + s[2..];
      KeepFirstStrict(cmp, t);
      assert cmp(s[1], s[0]) == Flip(cmp(s[0], s[1]));
      assert s[0] in t;
      EqualCovered(cmp, KeepFirst(cmp, t), s[1], s[0]);
    } else {
      SortedTail(cmp, s);
      KeepFirstStrict(cmp, s[1..]);
      PrependStrict(cmp, s, KeepFirst(cmp, s[1..]));
      PrependRepresents(cmp, s[0], s[1..], KeepFirst(cmp, s[1..]));
      assert s == [s[0]] + s[1..];
    }
  }

  lemma {:induction false} KeepLastStrict<T(!new)>(cmp: (T, T) -> Ordering, s: seq<T>)
    requires TotalPreorder(cmp) && Sorted(cmp, s)
    ensures StrictlySorted(cmp, KeepLast(cmp, s)) && Represents(cmp, KeepLast(cmp, s), s)
  {
    if |s| < 2 {
      forall x | x in s ensures Covered(cmp, s, x) {
        SelfEqual(cmp, x);
      }
    } else {
      SortedTail(cmp, s);
      KeepLastStrict(cmp, s[1..]);
      assert s == [s[0]] + s[1..];
      if cmp(s[0], s[1]).Equal? {
        assert s[1] in s[1..];
        EqualCovered(cmp, KeepLast(cmp, s[1..]), s[0], s[1]);
      } else {
        PrependStrict(cmp, s, KeepLast(cmp, s[1..]));
        PrependRepresents(cmp, s[0], s[1..], KeepLast(cmp, s[1..]));
      }
    }
  }

  // ---------------------------------------------------------------------------------------------
  // Which element of a class is kept
  // ---------------------------------------------------------------------------------------------

  lemma {:induction false} ClassIn<T>(cmp: (T, T) -> Ordering, s: seq<T>, x: T, y: T)
    ensures y in ClassOf(cmp, s, x) <==> y in s && cmp(x, y).Equal?
  {
    if s != [] {
      assert s == [s[0]] + s[1..];
      ClassIn(cmp, s[1..], x, y);
      ClassTail(cmp, s, x);
    }
  }

  lemma {:induction false} ClassEmpty<T>(cmp: (T, T) -> Ordering, s: seq<T>, x: T)
    requires forall y :: y in s ==> !cmp(x, y).Equal?
    ensures ClassOf(cmp, s, x) == []
  {
    if s != [] {
      assert s[0] in s && forall y :: y in s[1..] ==> y in s;
      ClassEmpty(cmp, s[1..], x);
      ClassTail(cmp, s, x);
    }
  }

  lemma {:induction false} HeadBelow<T(!new)>(cmp: (T, T) -> Ordering, s: seq<T>, x: T)
    requires TotalPreorder(cmp) && Sorted(cmp, s) && |s| > 1 && cmp(s[0], s[1]).Less? && x in s[1..]
    ensures cmp(s[0], x).Less? && cmp(x, s[0]).Greater?
  {
    var j :| 1 <= j < |s| && s[j] == x;
    assert j > 1 ==> !cmp(s[1], s[j]).Greater?;
    SelfEqual(cmp, s[1]);
    assert Chains(cmp(s[0], s[1]), cmp(s[1], x), cmp(s[0], x));
    assert cmp(x, s[0]) == Flip(cmp(s[0], x));
  }

  /** `KeepLast` keeps, of every class, the element that stands last in the list. */
  lemma {:induction false} KeepLastKeeps<T(!new)>(cmp: (T, T) -> Ordering, s: seq<T>, x: T)
    requires TotalPreorder(cmp) && Sorted(cmp, s) && x in KeepLast(cmp, s)
    ensures ClassOf(cmp, s, x) != [] && ClassOf(cmp, s, x)[|ClassOf(cmp, s, x)| - 1] == x
  {
    SelfEqual(cmp, x);
    ClassTail(cmp, s, x);
    if |s| < 2 {
      assert s == [x] && ClassOf(cmp, s[1..], x) == [];
    } else {
      SortedTail(cmp, s);
      if cmp(s[0], s[1]).Equal? || x in KeepLast(cmp, s[1..]) {
        KeepLastKeeps(cmp, s[1..], x);
      } else {
        forall y | y in s[1..] ensures !cmp(x, y).Equal? {
          HeadBelow(cmp, s, y);
        }
        ClassEmpty(cmp, s[1..], x);
      }
    }
  }

  /** `KeepFirst` keeps, of every class, the element that stands first in the list. */
  lemma {:induction false} KeepFirstKeeps<T(!new)>(cmp: (T, T) -> Ordering, s: seq<T>, x: T)
    requires TotalPreorder(cmp) && Sorted(cmp, s) && x in KeepFirst(cmp, s)
    ensures ClassOf(cmp, s, x) != [] && ClassOf(cmp, s, x)[0] == x
    decreases |s|
  {
    SelfEqual(cmp, x);
    ClassTail(cmp, s, x);
    if |s| < 2 {
      assert s == [x];
    } else if cmp(s[0], s[1]).Equal? {
      var t := [s[0]] + s[2..];
      assert Sorted(cmp, t) by {
        assert forall i :: 0 < i < |t| ==> t[i] == s[i + 1];
      }
      KeepFirstKeeps(cmp, t, x);
      ClassTail(cmp, t, x);
      ClassTail(cmp, s[1..], x);
      assert t[1..] == s[2..] && s[1..][1..] == s[2..];
      assert Chains(cmp(x, s[0]), cmp(s[0], s[1]), cmp(x, s[1]));
      assert cmp(s[1], s[0]) == Flip(cmp(s[0], s[1]));
      assert Chains(cmp(x, s[1]), cmp(s[1], s[0]), cmp(x, s[0]));
    } else if x != s[0] {
      SortedTail(cmp, s);
      KeepFirstKeeps(cmp, s[1..], x);
      KeptIn(cmp, s[1..], x);
      HeadBelow(cmp, s, x);
    }
  }

  lemma {:induction false} KeptIn<T(!new)>(cmp: (T, T) -> Ordering, s: seq<T>, x: T)
    requires TotalPreorder(cmp) && Sorted(cmp, s) && x in KeepFirst(cmp, s)
    ensures x in s
  {
    KeepFirstStrict(cmp, s);
  }

  lemma {:induction false} ClassConcat<T>(cmp: (T, T) -> Ordering, a: seq<T>, b: seq<T>, x: T)
    ensures ClassOf(cmp, a + b, x) == ClassOf(cmp, a, x) + ClassOf(cmp, b, x)
  {
    if a == [] {
      assert a + b == b;
    } else {
      assert (a + b)[1..] == a[1..] + b;
      ClassConcat(cmp, a[1..], b, x);
      ClassTail(cmp, a, x);
      ClassTail(cmp, a + b, x);
    }
  }

  /** Sorting and keeping the last of every class picks the element that stands last in the unsorted
      list. */
  lemma {:induction false} LastOfClass<T(!new)>(cmp: (T, T) -> Ordering, s: seq<T>, x: T)
    requires TotalPreorder(cmp) && x in KeepLast(cmp, StableSort(cmp, s))
    ensures ClassOf(cmp, s, x) != [] && ClassOf(cmp, s, x)[|ClassOf(cmp, s, x)| - 1] == x
  {
    SortSorted(cmp, s);
    KeepLastKeeps(cmp, StableSort(cmp, s), x);
    StableSortUnique(cmp, s, StableSort(cmp, s));
    assert ClassOf(cmp, StableSort(cmp, s), x) == ClassOf(cmp, s, x);
  }

  lemma {:induction false} FirstOfClass<T(!new)>(cmp: (T, T) -> Ordering, s: seq<T>, x: T)
    requires TotalPreorder(cmp) && x in KeepFirst(cmp, StableSort(cmp, s))
    ensures ClassOf(cmp, s, x) != [] && ClassOf(cmp, s, x)[0] == x
  {
    SortSorted(cmp, s);
    KeepFirstKeeps(cmp, StableSort(cmp, s), x);
    StableSortUnique(cmp, s, StableSort(cmp, s));
    assert ClassOf(cmp, StableSort(cmp, s), x) == ClassOf(cmp, s, x);
  }

  /** A class of the list is kept, by one element, exactly if it is not empty. */
  lemma {:induction false} ClassKept<T(!new)>(cmp: (T, T) -> Ordering, s: seq<T>, x: T)
    requires TotalPreorder(cmp)
    ensures ClassOf(cmp, KeepLast(cmp, StableSort(cmp, s)), x) == [] <==> ClassOf(cmp, s, x) == []
  {
    var sorted := StableSort(cmp, s);
    var kept := KeepLast(cmp, sorted);
    SortSorted(cmp, s);
    KeepLastStrict(cmp, sorted);
    if ClassOf(cmp, kept, x) != [] {
      var y := ClassOf(cmp, kept, x)[0];
      ClassIn(cmp, kept, x, y);
      assert y in multiset(sorted);
      ClassIn(cmp, s, x, y);
    }
    if ClassOf(cmp, s, x) != [] {
      var y := ClassOf(cmp, s, x)[0];
      ClassIn(cmp, s, x, y);
      assert y in multiset(sorted) && Covered(cmp, kept, y);
      var z :| z in kept && cmp(y, z).Equal?;
      assert Chains(cmp(x, y), cmp(y, z), cmp(x, z));
      ClassIn(cmp, kept, x, z);
    }
  }

  lemma {:induction false} ClassSame<T(!new)>(cmp: (T, T) -> Ordering, s: seq<T>, x: T, y: T)
    requires TotalPreorder(cmp) && cmp(x, y).Equal?
    ensures ClassOf(cmp, s, x) == ClassOf(cmp, s, y)
  {
    if s != [] {
      ClassSame(cmp, s[1..], x, y);
      ClassTail(cmp, s, x);
      ClassTail(cmp, s, y);
      assert cmp(y, x) == Flip(cmp(x, y));
      assert Chains(cmp(x, y), cmp(y, s[0]), cmp(x, s[0]));
      assert Chains(cmp(y, x), cmp(x, s[0]), cmp(y, s[0]));
    }
  }

  /** A set built from a list, followed by more elements, sorted and without repetitions. */
  function Merged<T>(cmp: (T, T) -> Ordering, s: seq<T>, more: seq<T>): seq<T> {
    KeepFirst(cmp, StableSort(cmp, KeepLast(cmp, StableSort(cmp, s)) + more))
  }

  /** Of a class, the last element of the list is kept; only if there is none, the first of the others. */
  lemma {:induction false} MergedKeeps<T(!new)>(cmp: (T, T) -> Ordering, s: seq<T>, more: seq<T>, x: T)
    requires TotalPreorder(cmp) && x in Merged(cmp, s, more)
    ensures ClassOf(cmp, s, x) != [] ==> x == ClassOf(cmp, s, x)[|ClassOf(cmp, s, x)| - 1]
    ensures ClassOf(cmp, s, x) == [] ==> ClassOf(cmp, more, x) != [] && x == ClassOf(cmp, more, x)[0]
  {
    var kept := KeepLast(cmp, StableSort(cmp, s));
    FirstOfClass(cmp, kept + more, x);
    ClassConcat(cmp, kept, more, x);
    ClassKept(cmp, s, x);
    if ClassOf(cmp, kept, x) != [] {
      ClassIn(cmp, kept, x, x);
      LastOfClass(cmp, s, x);
    }
  }

  /** So an element of the list is kept exactly if it is the last of its class. */
  lemma {:induction false} MergedHasIff<T(!new)>(cmp: (T, T) -> Ordering, s: seq<T>, more: seq<T>, x: T, y: T)
    requires TotalPreorder(cmp) && x in s && y in Merged(cmp, s, more) && cmp(x, y).Equal?
    ensures var class_ := ClassOf(cmp, s, x);
            class_ != [] && (x in Merged(cmp, s, more) <==> class_[|class_| - 1] == x)
  {
    SelfEqual(cmp, x);
    ClassIn(cmp, s, x, x);
    ClassSame(cmp, s, x, y);
    MergedKeeps(cmp, s, more, y);
    if x in Merged(cmp, s, more) {
      MergedKeeps(cmp, s, more, x);
    }
  }
}
