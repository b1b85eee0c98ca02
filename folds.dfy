/** The folds every statistic is built from: the left-to-right sum of
    `reduce((acc, g) => acc + f(g), 0)`, the group-by whose accumulator
    dictionary is updated in place, and the `reduce((a, b) => a > b ? a : b)`
    selections over the grouped entries. */
module Folds {
  import opened GameData

  /** Sum of `f` over the records, added left to right. */
  function Total(gs: seq<Game>, f: Game -> int): (r: int)
    ensures gs == [] ==> r == 0
    ensures (forall i :: 0 <= i < |gs| ==> f(gs[i]) >= 0) ==> r >= 0
  {
    if gs == [] then 0 else Total(gs[..|gs| - 1], f) + f(gs[|gs| - 1])
  }

  /** Sums distribute over concatenation. */
  lemma {:induction false} TotalAppend(a: seq<Game>, b: seq<Game>, f: Game -> int)
    ensures Total(a + b, f) == Total(a, f) + Total(b, f)
    decreases |b|
  {
    if b != [] {
      assert (a + b)[..|a + b| - 1] == a + b[..|b| - 1];
      TotalAppend(a, b[..|b| - 1], f);
    } else {
      assert a + b == a;
    }
  }

  /** The generic accumulator fold: `step` applied to each record in order,
      starting from `init`. */
  function Fold<V>(gs: seq<Game>, init: V, step: (V, Game) -> V): V
  {
    if gs == [] then init else step(Fold(gs[..|gs| - 1], init, step), gs[|gs| - 1])
  }

  /** The records whose key is `k`, in list order. */
  function Members<K(==)>(gs: seq<Game>, key: Game -> K, k: K): (ms: seq<Game>)
    ensures |ms| <= |gs|
    ensures forall g :: g in ms <==> g in gs && key(g) == k
  {
    if gs == [] then []
    else
      var rest := Members(gs[..|gs| - 1], key, k);
      assert gs == gs[..|gs| - 1] + [gs[|gs| - 1]];
      if key(gs[|gs| - 1]) == k then rest + [gs[|gs| - 1]] else rest
  }

  /** Members keeps every occurrence of a record with key `k` and nothing
      else: as a multiset it is the restriction of the records to `k`. */
  lemma {:induction false} MembersMultiset<K>(gs: seq<Game>, key: Game -> K, k: K)
    ensures forall g :: multiset(Members(gs, key, k))[g] == if key(g) == k then multiset(gs)[g] else 0
  {
    if gs != [] {
      var n := |gs| - 1;
      MembersMultiset(gs[..n], key, k);
      assert gs == gs[..n] + [gs[n]];
    }
  }

  /** The distinct keys of the records in order of first appearance: the
      order in which a fresh `acc[key]` entry is created, and hence the order
      `Object.entries` lists them in. */
  function Keys<K(==)>(gs: seq<Game>, key: Game -> K): (ks: seq<K>)
    ensures forall i, j :: 0 <= i < j < |ks| ==> ks[i] != ks[j]
    ensures forall i :: 0 <= i < |gs| ==> key(gs[i]) in ks
    ensures forall k :: k in ks ==> exists i :: 0 <= i < |gs| && key(gs[i]) == k
  {
    if gs == [] then []
    else
      var ks := Keys(gs[..|gs| - 1], key);
      var k := key(gs[|gs| - 1]);
      assert forall i :: 0 <= i < |gs| - 1 ==> gs[..|gs| - 1][i] == gs[i];
      if k in ks then ks else ks + [k]
  }

  /** A key's first occurrence comes before that of every key listed after
      it: the listing is first-appearance order. */
  lemma {:induction false} KeysFirstAppearance<K>(gs: seq<Game>, key: Game -> K, i: nat, j: nat)
    requires i < j < |Keys(gs, key)|
    ensures exists a :: 0 <= a < |gs| && key(gs[a]) == Keys(gs, key)[i] &&
                        forall b :: 0 <= b <= a ==> key(gs[b]) != Keys(gs, key)[j]
  {
    var n := |gs| - 1;
    var prefix := gs[..n];
    var ks := Keys(prefix, key);
    KeysSnoc(gs, key, n);
    assert gs[..n + 1] == gs;
    assert forall b :: 0 <= b < n ==> prefix[b] == gs[b];
    if j < |ks| {
      assert Keys(gs, key)[i] == ks[i] && Keys(gs, key)[j] == ks[j];
      KeysFirstAppearance(prefix, key, i, j);
      var a :| 0 <= a < |prefix| && key(prefix[a]) == ks[i] &&
                forall b :: 0 <= b <= a ==> key(prefix[b]) != ks[j];
      assert key(gs[a]) == Keys(gs, key)[i];
    } else {
      // The key listed at j is that of the last record, unseen before it.
      assert Keys(gs, key) == ks + [key(gs[n])];
      assert ks[i] in ks;
      var a :| 0 <= a < |prefix| && key(prefix[a]) == ks[i];
      assert key(gs[a]) == Keys(gs, key)[i];
      forall b | 0 <= b <= a
        ensures key(gs[b]) != Keys(gs, key)[j]
      {
        assert key(prefix[b]) in ks;
      }
    }
  }

  /** The key-value pairs of a dictionary in its key order: `Object.entries`. */
  function Entries<K(==), V>(order: seq<K>, acc: map<K, V>): seq<(K, V)>
    requires forall k :: k in order ==> k in acc
  {
    seq(|order|, i requires 0 <= i < |order| => (order[i], acc[order[i]]))
  }

  /** The listing a group-by produces: each key in first-appearance order
      with the fold of `step` over that key's records. */
  function Grouped<K(==), V>(gs: seq<Game>, key: Game -> K, init: V, step: (V, Game) -> V): seq<(K, V)>
  {
    var ks := Keys(gs, key);
    seq(|ks|, j requires 0 <= j < |ks| => (ks[j], Fold(Members(gs, key, ks[j]), init, step)))
  }

  /** One more record extends its own key's members and nobody else's. */
  lemma MembersSnoc<K>(gs: seq<Game>, key: Game -> K, i: nat, k: K)
    requires i < |gs|
    ensures Members(gs[..i + 1], key, k) ==
            if key(gs[i]) == k then Members(gs[..i], key, k) + [gs[i]] else Members(gs[..i], key, k)
  {
    assert gs[..i + 1][..i] == gs[..i];
  }

  /** One more record adds its key at the end, unless the key was seen. */
  lemma KeysSnoc<K>(gs: seq<Game>, key: Game -> K, i: nat)
    requires i < |gs|
    ensures Keys(gs[..i + 1], key) ==
            if key(gs[i]) in Keys(gs[..i], key) then Keys(gs[..i], key) else Keys(gs[..i], key) + [key(gs[i])]
  {
    assert gs[..i + 1][..i] == gs[..i];
  }

  /** A key has no members exactly when no record carries it. */
  lemma MembersEmpty<K>(gs: seq<Game>, key: Game -> K, k: K)
    ensures Members(gs, key, k) == [] <==> forall i :: 0 <= i < |gs| ==> key(gs[i]) != k
  {
    if exists i :: 0 <= i < |gs| && key(gs[i]) == k {
      var i :| 0 <= i < |gs| && key(gs[i]) == k;
      assert gs[i] in Members(gs, key, k);
    }
  }

  /** Appending one record adds its value to the sum. */
  lemma TotalSnoc(gs: seq<Game>, g: Game, f: Game -> int)
    ensures Total(gs + [g], f) == Total(gs, f) + f(g)
  {
    assert (gs + [g])[..|gs|] == gs;
  }

  /** A key that has not been seen has no members yet. */
  lemma MembersOfUnseenKey<K>(gs: seq<Game>, key: Game -> K, k: K)
    requires k !in Keys(gs, key)
    ensures Members(gs, key, k) == []
  {
  }

  /** `games.reduce((acc, g) => { acc[key(g)] = step(acc[key(g)] || init, g); return acc }, {})`:
      the dictionary is updated in place, one record at a time. The result
      lists every key in first-appearance order with the fold of `step` over
      exactly that key's records. */
  method GroupBy<K(==), V>(gs: seq<Game>, key: Game -> K, init: V, step: (V, Game) -> V)
    returns (order: seq<K>, acc: map<K, V>)
    ensures order == Keys(gs, key)
    ensures forall k :: k in acc <==> k in order
    ensures forall k :: k in acc ==> acc[k] == Fold(Members(gs, key, k), init, step)
    ensures Entries(order, acc) == Grouped(gs, key, init, step)
  {
    order := [];
    acc := map[];
    for i := 0 to |gs|
      invariant order == Keys(gs[..i], key)
      invariant forall k :: k in acc <==> k in order
      invariant forall k :: k in acc ==> acc[k] == Fold(Members(gs[..i], key, k), init, step)
    {
      var g := gs[i];
      var k := key(g);
      KeysSnoc(gs, key, i);
      var seen := if k in acc then acc[k] else init;
      if k !in acc {
        MembersOfUnseenKey(gs[..i], key, k);
        order := order + [k];
      }
      assert seen == Fold(Members(gs[..i], key, k), init, step);
      MembersSnoc(gs, key, i, k);
      acc := acc[k := step(seen, g)];
      forall k' | k' in acc && k' != k
        ensures acc[k'] == Fold(Members(gs[..i + 1], key, k'), init, step)
      {
        MembersSnoc(gs, key, i, k');
      }
    }
    assert gs[..|gs|] == gs;
    EntriesGrouped(gs, key, init, step, order, acc);
  }

  /** Listing a finished accumulator in key order gives the group-by listing. */
  lemma EntriesGrouped<K, V>(gs: seq<Game>, key: Game -> K, init: V, step: (V, Game) -> V, order: seq<K>, acc: map<K, V>)
    requires order == Keys(gs, key)
    requires forall k :: k in order ==> k in acc && acc[k] == Fold(Members(gs, key, k), init, step)
    ensures Entries(order, acc) == Grouped(gs, key, init, step)
  {
    assert forall j :: 0 <= j < |order| ==> Entries(order, acc)[j] == Grouped(gs, key, init, step)[j];
  }

  /** `below` is a strict total order on the values, as `<` and `>` are on
      numbers: irreflexive, transitive, and relating any two distinct
      values one way or the other. */
  ghost predicate StrictTotalOrder<V(!new)>(below: (V, V) -> bool) {
    && (forall a :: !below(a, a))
    && (forall a, b, c :: below(a, b) && below(b, c) ==> below(a, c))
    && (forall a, b :: a != b ==> below(a, b) || below(b, a))
  }

  /** The comparisons the selections use: picking the last value nothing is
      `Less` than gives a maximum, the last value nothing is `Greater` than a
      minimum. */
  function Less(a: int, b: int): bool { a < b }
  function Greater(a: int, b: int): bool { a > b }
  function LessReal(a: real, b: real): bool { a < b }
  function GreaterReal(a: real, b: real): bool { a > b }

  lemma NumberOrders()
    ensures StrictTotalOrder(Less) && StrictTotalOrder(Greater)
    ensures StrictTotalOrder(LessReal) && StrictTotalOrder(GreaterReal)
  {
  }

  /** The index `reduce((a, b) => below(value(b), value(a)) ? a : b)` settles
      on. With `below` as `Less` this is the `a > b ? a : b` selection of a
      maximum, with `Greater` the `a < b ? a : b` selection of a minimum.
      No value is above the picked one, and every later value is strictly
      below it: a tie hands the accumulator over to the later entry. */
  function PickLast<T, V(!new)>(xs: seq<T>, value: T -> V, below: (V, V) -> bool): (k: nat)
    requires xs != []
    requires StrictTotalOrder(below)
    ensures k < |xs|
    ensures forall j :: 0 <= j < |xs| ==> !below(value(xs[k]), value(xs[j]))
    ensures forall j :: k < j < |xs| ==> below(value(xs[j]), value(xs[k]))
  {
    if |xs| == 1 then 0
    else
      var a := PickLast(xs[..|xs| - 1], value, below);
      assert xs[..|xs| - 1][a] == xs[a];
      if below(value(xs[|xs| - 1]), value(xs[a])) then a else |xs| - 1
  }

  /** `k` is listed, no listed key has a value above its own, and every key
      listed after `k` has a value strictly below: the key a selection by
      `below` over the listing settles on (the last maximum for `Less`, the
      last minimum for `Greater`). */
  ghost predicate IsLastBest<K, V>(ks: seq<K>, value: K -> V, below: (V, V) -> bool, k: K) {
    && k in ks
    && (forall p :: p in ks ==> !below(value(k), value(p)))
    && (forall i, j :: 0 <= i < j < |ks| && ks[i] == k ==> below(value(ks[j]), value(k)))
  }

  /** `k` is the FIRST key with the largest value: every later key with the
      same value loses to it, which is what a strict `>` update in a loop
      over the keys keeps. */
  ghost predicate IsFirstMax<K>(ks: seq<K>, value: K -> int, k: K) {
    && k in ks
    && (forall p :: p in ks ==> value(p) <= value(k))
    && (forall i, j :: 0 <= i < j < |ks| && ks[j] == k ==> value(ks[i]) < value(k))
  }

  /** The keys of a listing, in listing order. */
  function KeysOf<K, V>(xs: seq<(K, V)>): (ks: seq<K>)
    ensures |ks| == |xs|
  {
    seq(|xs|, j requires 0 <= j < |xs| => xs[j].0)
  }

  /** A group-by listing lists exactly the keys, in first-appearance order. */
  lemma GroupedKeys<K, V>(gs: seq<Game>, key: Game -> K, init: V, step: (V, Game) -> V)
    ensures KeysOf(Grouped(gs, key, init, step)) == Keys(gs, key)
    ensures gs != [] ==> Grouped(gs, key, init, step) != []
  {
    if gs != [] {
      assert key(gs[0]) in Keys(gs, key);
    }
  }

  /** Every listed key has at least one record. */
  lemma KeyHasMembers<K>(gs: seq<Game>, key: Game -> K, k: K)
    requires k in Keys(gs, key)
    ensures |Members(gs, key, k)| >= 1
  {
    var i :| 0 <= i < |gs| && key(gs[i]) == k;
    assert gs[i] in Members(gs, key, k);
  }

  /** Picking from a listing of distinct keys, whose entry values are those
      of `F` on the keys, picks the last key that is best by `F`. */
  lemma PickLastListing<K, V, W(!new)>(xs: seq<(K, V)>, value: ((K, V)) -> W, below: (W, W) -> bool, F: K -> W)
    requires xs != []
    requires StrictTotalOrder(below)
    requires forall i, j :: 0 <= i < j < |xs| ==> KeysOf(xs)[i] != KeysOf(xs)[j]
    requires forall j :: 0 <= j < |xs| ==> value(xs[j]) == F(xs[j].0)
    ensures IsLastBest(KeysOf(xs), F, below, xs[PickLast(xs, value, below)].0)
  {
    var ks := KeysOf(xs);
    var k := PickLast(xs, value, below);
    assert ks[k] == xs[k].0 && ks[k] in ks;
    forall p | p in ks
      ensures !below(F(ks[k]), F(p))
    {
      var j :| 0 <= j < |ks| && ks[j] == p;
      assert !below(value(xs[k]), value(xs[j]));
    }
    forall i, j | 0 <= i < j < |ks| && ks[i] == ks[k]
      ensures below(F(ks[j]), F(ks[k]))
    {
      assert i == k;
      assert below(value(xs[j]), value(xs[k]));
    }
  }

  /** Picking from a group-by listing whose entry values are those of `F` on
      the keys picks the last key, in first-appearance order, that is best
      by `F`. */
  lemma PickGrouped<K, V, W(!new)>(gs: seq<Game>, key: Game -> K, init: V, step: (V, Game) -> V,
                                   value: ((K, V)) -> W, below: (W, W) -> bool, F: K -> W)
    requires gs != []
    requires StrictTotalOrder(below)
    requires var es := Grouped(gs, key, init, step);
             forall j :: 0 <= j < |es| ==> value(es[j]) == F(es[j].0)
    ensures Grouped(gs, key, init, step) != []
    ensures var es := Grouped(gs, key, init, step);
            IsLastBest(Keys(gs, key), F, below, es[PickLast(es, value, below)].0)
  {
    GroupedKeys(gs, key, init, step);
    PickLastListing(Grouped(gs, key, init, step), value, below, F);
  }
}
