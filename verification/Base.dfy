/** Small vocabulary shared by every component: optional values, sums, prefixes and the 64-bit width. */
module Base {
  datatype Option<+T> = None | Some(value: T) {
    function GetOr(default: T): T {
      match this
      case Some(v) => v
      case None => default
    }
  }

  /** One more than the largest `u64`; atomic additions wrap modulo this value. */
  const U64_LIMIT: int := 0x1_0000_0000_0000_0000

  /** The value a `u64` holds after additions that would make it `n`. */
  function Wrap(n: int): (w: nat)
    ensures w < U64_LIMIT
  {
    n % U64_LIMIT
  }

  lemma WrapAdd(a: int, b: int)
    ensures Wrap(Wrap(a) + b) == Wrap(a + b) && Wrap(Wrap(a) + Wrap(b)) == Wrap(a + b)
  {
  }

  lemma WrapSmall(n: nat)
    requires n < U64_LIMIT
    ensures Wrap(n) == n
  {
  }

  /** A `u64` counter is exact below 2^64, and as many more make no difference. */
  lemma WrapIsU64(n: int)
    ensures 0 <= n < 18446744073709551616 ==> Wrap(n) == n
    ensures Wrap(n + 18446744073709551616) == Wrap(n)
  {
  }

  function Min(a: int, b: int): int { if a <= b then a else b }

  function Max(a: int, b: int): int { if a >= b then a else b }

  function Sum(xs: seq<int>): int {
    if xs == [] then 0 else Sum(xs[..|xs| - 1]) + xs[|xs| - 1]
  }

  lemma {:induction false} SumUpdate(xs: seq<int>, i: nat, x: int)
    requires i < |xs|
    ensures Sum(xs[i := x]) == Sum(xs) - xs[i] + x
  {
    var n := |xs| - 1;
    if i == n {
      assert xs[i := x][..n] == xs[..n];
    } else {
      SumUpdate(xs[..n], i, x);
      assert xs[i := x][..n] == xs[..n][i := x];
    }
  }

  // ---- where things came from -----------------------------------------------------------

  /** Increasing indices below `n`, as a filter picks them. */
  ghost predicate Picks(from: seq<nat>, n: nat) {
    && (forall i :: 0 <= i < |from| ==> from[i] < n)
    && forall i, j :: 0 <= i < j < |from| ==> from[i] < from[j]
  }

  /** The elements picked. */
  ghost function At<T>(xs: seq<T>, from: seq<nat>): (picked: seq<T>)
    requires Picks(from, |xs|)
    ensures |picked| == |from| && forall i :: 0 <= i < |from| ==> picked[i] == xs[from[i]]
  {
    seq(|from|, i requires 0 <= i < |from| => xs[from[i]])
  }

  /** A filter that has come to the last element takes it or leaves it. */
  lemma PicksNext<T>(xs: seq<T>, from: seq<nat>)
    requires xs != [] && Picks(from, |xs| - 1)
    ensures var n := |xs| - 1;
            && Picks(from, n + 1) && Picks(from + [n], n + 1)
            && At(xs, from) == At(xs[..n], from) && At(xs, from + [n]) == At(xs[..n], from) + [xs[n]]
            && n !in from && forall k: nat :: k in from + [n] <==> k in from || k == n
    ensures forall k :: 0 <= k < |xs| - 1 ==> xs[..|xs| - 1][k] == xs[k]
  {
  }

  lemma CountedNext(before: set<nat>, all: set<nat>, n: nat, more: bool)
    requires n !in before && forall i: nat :: i in all <==> i in before || (more && i == n)
    ensures |all| == |before| + if more then 1 else 0
  {
    assert all == if more then before + {n} else before;
  }

  /** A position in a list of lists. */
  type Place = (nat, nat)

  ghost predicate Before(a: Place, b: Place) { a.0 < b.0 || (a.0 == b.0 && a.1 < b.1) }

  ghost predicate Ascending(from: seq<Place>) {
    forall i, j :: 0 <= i < j < |from| ==> Before(from[i], from[j])
  }

  ghost function Places(r: nat, own: seq<nat>): (from: seq<Place>)
    ensures |from| == |own| && forall i :: 0 <= i < |own| ==> from[i] == (r, own[i])
  {
    seq(|own|, i requires 0 <= i < |own| => (r, own[i]))
  }

  lemma NoPlaces()
    ensures Ascending([])
  {
  }

  /** Of places in order, one is picked exactly if its index is. */
  lemma PlacePicked(all: seq<Place>, from: seq<nat>, i: nat)
    requires Ascending(all) && Picks(from, |all|) && i < |all|
    ensures Ascending(At(all, from)) && (all[i] in At(all, from) <==> i in from)
  {
    if i in from {
      var k :| 0 <= k < |from| && from[k] == i;
      assert At(all, from)[k] == all[i];
    }
    if all[i] in At(all, from) {
      var k :| 0 <= k < |from| && At(all, from)[k] == all[i];
      assert !(from[k] < i) && !(i < from[k]);
    }
  }

  lemma PlacesAppend(before: seq<Place>, n: nat, own: seq<nat>)
    requires Ascending(before) && forall i :: 0 <= i < |before| ==> before[i].0 < n
    requires forall i, j :: 0 <= i < j < |own| ==> own[i] < own[j]
    ensures Ascending(before + Places(n, own))
    ensures forall r, j :: (r, j) in before + Places(n, own) <==> (r, j) in before || (r == n && j in own)
    ensures forall j :: (n, j) !in before
  {
    var last := Places(n, own);
    forall r, j ensures (r, j) in last <==> r == n && j in own {
      if r == n && j in own {
        var i :| 0 <= i < |own| && own[i] == j;
        assert last[i] == (r, j);
      }
    }
  }

  lemma ConcatAssoc<T>(a: seq<T>, b: seq<T>, c: seq<T>)
    ensures (a + b) + c == a + (b + c)
  {
  }

  /** Concatenates a list of lists. */
  function Flatten<T>(xss: seq<seq<T>>): seq<T> {
    if xss == [] then [] else xss[0] + Flatten(xss[1..])
  }

  lemma FlattenOne<T>(xs: seq<T>)
    ensures Flatten([xs]) == xs
  {
    assert [xs][1..] == [];
  }

  lemma {:induction false} FlattenAppend<T>(xss: seq<seq<T>>, yss: seq<seq<T>>)
    ensures Flatten(xss + yss) == Flatten(xss) + Flatten(yss)
  {
    if xss == [] {
      assert xss + yss == yss;
    } else {
      FlattenAppend(xss[1..], yss);
      assert (xss + yss)[1..] == xss[1..] + yss;
      ConcatAssoc(xss[0], Flatten(xss[1..]), Flatten(yss));
    }
  }
}
