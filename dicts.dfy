/** Python's `dict`. `FromPairs` is a dict built from key/value pairs where a
    later pair overwrites an earlier one and only the final mapping matters;
    `Dict` keeps, in addition, the order in which keys were first inserted,
    for the scripts whose output depends on that order. */
module Dicts {
  import opened Wrappers

  /** `{k: v for k, v in pairs}`: the last pair for a key wins. */
  function FromPairs<K, V>(pairs: seq<(K, V)>): map<K, V> {
    if pairs == [] then map[]
    else
      var last := pairs[|pairs| - 1];
      FromPairs(pairs[..|pairs| - 1])[last.0 := last.1]
  }

  /** One more pair overwrites its key. */
  lemma FromPairsSnoc<K, V>(pairs: seq<(K, V)>, p: (K, V))
    ensures FromPairs(pairs + [p]) == FromPairs(pairs)[p.0 := p.1]
  {
    assert (pairs + [p])[..|pairs|] == pairs;
  }

  /** A key is present exactly when some pair names it, and it holds the value of
      the last pair that does. */
  lemma {:induction false} FromPairsLastWins<K, V>(pairs: seq<(K, V)>, k: K)
    ensures k in FromPairs(pairs) <==> exists i :: 0 <= i < |pairs| && pairs[i].0 == k
    ensures k in FromPairs(pairs) ==>
      exists i :: 0 <= i < |pairs| && pairs[i].0 == k && FromPairs(pairs)[k] == pairs[i].1
        && forall j :: i < j < |pairs| ==> pairs[j].0 != k
  {
    if pairs != [] {
      var n := |pairs| - 1;
      var init := pairs[..n];
      FromPairsLastWins(init, k);
      if pairs[n].0 != k {
        if k in FromPairs(init) {
          var i :| 0 <= i < |init| && init[i].0 == k && FromPairs(init)[k] == init[i].1
            && forall j :: i < j < |init| ==> init[j].0 != k;
          assert pairs[i] == init[i];
          assert forall j :: i < j < |pairs| ==> pairs[j].0 != k by {
            forall j | i < j < |pairs| ensures pairs[j].0 != k {
              if j < n {
                assert pairs[j] == init[j];
              }
            }
          }
        }
        assert (exists i :: 0 <= i < |pairs| && pairs[i].0 == k) ==> exists i :: 0 <= i < |init| && init[i].0 == k by {
          if i :| 0 <= i < |pairs| && pairs[i].0 == k {
            assert i < n && init[i] == pairs[i];
          }
        }
      }
    }
  }

  /** Building from `a` then `b` is the union of both, `b`'s entries winning. */
  lemma {:induction false} FromPairsConcat<K, V>(a: seq<(K, V)>, b: seq<(K, V)>)
    ensures FromPairs(a + b) == FromPairs(a) + FromPairs(b)
  {
    if b == [] {
      assert a + b == a;
    } else {
      var n := |b| - 1;
      FromPairsConcat(a, b[..n]);
      assert (a + b)[..|a| + n] == a + b[..n];
    }
  }

  /** The pairs that `entry` extracts from `xs`, in order; an item it maps to
      `None` (a skipped line, a missing value) contributes nothing. */
  function Collect<A, K, V>(xs: seq<A>, entry: A -> Option<(K, V)>): (ps: seq<(K, V)>)
    ensures |ps| <= |xs|
  {
    if xs == [] then []
    else
      var init := Collect(xs[..|xs| - 1], entry);
      match entry(xs[|xs| - 1])
      case None => init
      case Some(p) => init + [p]
  }

  /** Collecting one more item adds at most its own pair. */
  lemma CollectAppend<A, K, V>(xs: seq<A>, x: A, entry: A -> Option<(K, V)>)
    ensures Collect(xs + [x], entry) ==
      if entry(x).Some? then Collect(xs, entry) + [entry(x).value] else Collect(xs, entry)
  {
    assert (xs + [x])[..|xs|] == xs;
  }

  /** Filling a dict from one more item of a slice: the item's pair, if any, is
      written last. */
  lemma CollectSliceStep<A, K, V>(xs: seq<A>, lo: nat, hi: nat, entry: A -> Option<(K, V)>)
    requires lo <= hi < |xs|
    ensures FromPairs(Collect(xs[lo..hi + 1], entry)) ==
      var m := FromPairs(Collect(xs[lo..hi], entry));
      if entry(xs[hi]).Some? then m[entry(xs[hi]).value.0 := entry(xs[hi]).value.1] else m
  {
    assert xs[lo..hi + 1] == xs[lo..hi] + [xs[hi]];
    CollectAppend(xs[lo..hi], xs[hi], entry);
    var ps := Collect(xs[lo..hi + 1], entry);
    if entry(xs[hi]).Some? {
      assert ps[..|ps| - 1] == Collect(xs[lo..hi], entry);
    }
  }

  /** `entry(x)` assigns a value to key `k`. */
  predicate Assigns<A, K(==), V>(entry: A -> Option<(K, V)>, x: A, k: K) {
    entry(x).Some? && entry(x).value.0 == k
  }

  /** A dict filled from the collected pairs holds `k` exactly when some item
      assigns it, with the value of the last item that does. */
  lemma {:induction false} CollectLastWins<A, K, V>(xs: seq<A>, entry: A -> Option<(K, V)>, k: K)
    ensures k in FromPairs(Collect(xs, entry)) <==>
      exists i :: 0 <= i < |xs| && Assigns(entry, xs[i], k)
    ensures k in FromPairs(Collect(xs, entry)) ==>
      exists i :: 0 <= i < |xs| && Assigns(entry, xs[i], k)
        && FromPairs(Collect(xs, entry))[k] == entry(xs[i]).value.1
        && forall j :: i < j < |xs| ==> !Assigns(entry, xs[j], k)
  {
    if xs != [] {
      var n := |xs| - 1;
      var init := xs[..n];
      assert xs == init + [xs[n]];
      CollectAppend(init, xs[n], entry);
      CollectLastWins(init, entry, k);
      var m := FromPairs(Collect(init, entry));
      var ps := Collect(xs, entry);
      if entry(xs[n]).Some? {
        assert ps[..|ps| - 1] == Collect(init, entry);
      }
      if !Assigns(entry, xs[n], k) {
        assert k in FromPairs(ps) <==> k in m;
        assert k in m ==> FromPairs(ps)[k] == m[k];
        if k in m {
          var i :| 0 <= i < n && Assigns(entry, init[i], k) && m[k] == entry(init[i]).value.1
            && forall j :: i < j < n ==> !Assigns(entry, init[j], k);
          assert xs[i] == init[i];
          forall j | i < j < |xs| ensures !Assigns(entry, xs[j], k) {
            if j < n { assert xs[j] == init[j]; }
          }
        }
        if i :| 0 <= i < |xs| && Assigns(entry, xs[i], k) {
          assert i < n && init[i] == xs[i];
        }
      }
    }
  }

  /** `CollectLastWins` for the items of `xs` from position `lo` on, numbered as
      positions of `xs`. */
  lemma CollectSuffixLastWins<A, K, V>(xs: seq<A>, lo: nat, entry: A -> Option<(K, V)>, k: K)
    requires lo <= |xs|
    ensures k in FromPairs(Collect(xs[lo..], entry)) <==>
      exists i :: lo <= i < |xs| && Assigns(entry, xs[i], k)
    ensures k in FromPairs(Collect(xs[lo..], entry)) ==>
      exists i :: lo <= i < |xs| && Assigns(entry, xs[i], k)
        && FromPairs(Collect(xs[lo..], entry))[k] == entry(xs[i]).value.1
        && forall j :: i < j < |xs| ==> !Assigns(entry, xs[j], k)
  {
    var data := xs[lo..];
    var m := FromPairs(Collect(data, entry));
    CollectLastWins(data, entry, k);
    if i :| lo <= i < |xs| && Assigns(entry, xs[i], k) {
      assert data[i - lo] == xs[i];
    }
    if k in m {
      var i :| 0 <= i < |data| && Assigns(entry, data[i], k) && m[k] == entry(data[i]).value.1
        && forall j :: i < j < |data| ==> !Assigns(entry, data[j], k);
      assert xs[i + lo] == data[i];
      forall j | i + lo < j < |xs| ensures !Assigns(entry, xs[j], k) {
        assert xs[j] == data[j - lo];
      }
    }
  }

  /** An insertion-ordered dict: its entries in insertion order. */
  type Dict<K, V> = seq<(K, V)>

  function Keys<K, V>(d: Dict<K, V>): (ks: seq<K>)
    ensures |ks| == |d| && forall i :: 0 <= i < |d| ==> ks[i] == d[i].0
  {
    seq(|d|, i requires 0 <= i < |d| => d[i].0)
  }

  /** No key appears twice. */
  predicate Valid<K(==), V>(d: Dict<K, V>) {
    forall i, j :: 0 <= i < j < |d| ==> d[i].0 != d[j].0
  }

  /** The mapping a valid dict stands for. */
  function ToMap<K(!new), V>(d: Dict<K, V>): (m: map<K, V>)
    requires Valid(d)
    ensures forall k :: k in m <==> k in Keys(d)
    ensures forall i :: 0 <= i < |d| ==> m[d[i].0] == d[i].1
  {
    map i | 0 <= i < |d| :: d[i].0 := d[i].1
  }

  /** `d.get(k)`. */
  function Get<K(==), V>(d: Dict<K, V>, k: K): (r: Option<V>)
    ensures r.Some? <==> k in Keys(d)
    ensures r.Some? ==> exists i :: 0 <= i < |d| && d[i] == (k, r.value)
  {
    if d == [] then None
    else if d[0].0 == k then Some(d[0].1)
    else
      var r := Get(d[1..], k);
      assert Keys(d) == [d[0].0] + Keys(d[1..]);
      assert r.Some? ==> exists i :: 0 <= i < |d| && d[i] == (k, r.value) by {
        if r.Some? {
          var i :| 0 <= i < |d[1..]| && d[1..][i] == (k, r.value);
          assert d[i + 1] == (k, r.value);
        }
      }
      r
  }

  /** The position of the first entry with key `k`. */
  function FirstIndex<K(==), V>(d: Dict<K, V>, k: K): (i: nat)
    requires k in Keys(d)
    ensures i < |d| && d[i].0 == k && forall j :: 0 <= j < i ==> d[j].0 != k
  {
    if d[0].0 == k then 0
    else
      assert Keys(d) == [d[0].0] + Keys(d[1..]);
      FirstIndex(d[1..], k) + 1
  }

  /** `d[k] = v`: overwrites in place when `k` is present, appends otherwise. */
  function Put<K(==), V>(d: Dict<K, V>, k: K, v: V): (r: Dict<K, V>)
    ensures Keys(r) == if k in Keys(d) then Keys(d) else Keys(d) + [k]
    ensures Valid(d) ==> Valid(r)
    ensures Valid(d) ==> forall i :: 0 <= i < |r| ==> r[i] == if r[i].0 == k then (k, v) else d[i]
  {
    if k in Keys(d) then
      var i := FirstIndex(d, k);
      var r := d[i := (k, v)];
      assert Keys(r) == Keys(d);
      r
    else d + [(k, v)]
  }

  /** Putting a key updates the mapping at that key and at no other. */
  lemma PutUpdates<K(!new), V>(d: Dict<K, V>, k: K, v: V)
    requires Valid(d)
    ensures Valid(Put(d, k, v)) && ToMap(Put(d, k, v)) == ToMap(d)[k := v]
  {
    var r := Put(d, k, v);
    var m, m' := ToMap(d), ToMap(r);
    forall x ensures x in m' <==> x in m[k := v] {
    }
    forall x | x in m' ensures m'[x] == m[k := v][x] {
      var i :| 0 <= i < |r| && Keys(r)[i] == x;
      if x != k {
        assert d[i].0 == x;
      }
    }
  }

  /** The dict after `d[k] = v` for each pair of `ps` in turn, starting empty. */
  function PutAll<K(==), V>(ps: seq<(K, V)>): (r: Dict<K, V>)
    ensures Valid(r)
  {
    if ps == [] then []
    else
      var n := |ps| - 1;
      Put(PutAll(ps[..n]), ps[n].0, ps[n].1)
  }

  /** One more pair is one more `Put`. */
  lemma PutAllSnoc<K, V>(ps: seq<(K, V)>, p: (K, V))
    ensures PutAll(ps + [p]) == Put(PutAll(ps), p.0, p.1)
  {
    assert (ps + [p])[..|ps|] == ps;
  }

  /** Putting the pairs in turn gives the mapping built from them. */
  lemma {:induction false} PutAllMap<K(!new), V>(ps: seq<(K, V)>)
    ensures ToMap(PutAll(ps)) == FromPairs(ps)
  {
    if ps != [] {
      var n := |ps| - 1;
      PutAllMap(ps[..n]);
      PutUpdates(PutAll(ps[..n]), ps[n].0, ps[n].1);
    } else {
      assert ToMap<K, V>([]) == map[];
    }
  }

  /** On a valid dict, `get` agrees with the mapping it stands for. */
  lemma GetToMap<K(!new), V>(d: Dict<K, V>, k: K)
    requires Valid(d)
    ensures Get(d, k) == if k in ToMap(d) then Some(ToMap(d)[k]) else None
  {
    var r := Get(d, k);
    if r.Some? {
      var i :| 0 <= i < |d| && d[i] == (k, r.value);
    }
  }

  /** After `d[k] = v`, `get` finds `v` at `k` and the old values elsewhere. */
  lemma GetPut<K(!new), V>(d: Dict<K, V>, k: K, v: V, x: K)
    requires Valid(d)
    ensures Get(Put(d, k, v), x) == if x == k then Some(v) else Get(d, x)
  {
    GetToMap(d, x);
    GetToMap(Put(d, k, v), x);
    PutUpdates(d, k, v);
  }

  /** Pairs with distinct keys are put in order, each appended. */
  lemma {:induction false} PutAllDistinct<K(!new), V>(ps: seq<(K, V)>)
    requires Valid(ps)
    ensures PutAll(ps) == ps
  {
    if ps != [] {
      var n := |ps| - 1;
      PutAllDistinct(ps[..n]);
      assert ps[n].0 !in Keys(ps[..n]);
      assert ps[..n] + [ps[n]] == ps;
    }
  }

  /** The state after applying `f` for each item of `ws` in turn. */
  function Fold<S, W>(f: (S, W) -> S, s: S, ws: seq<W>): S {
    if ws == [] then s else f(Fold(f, s, ws[..|ws| - 1]), ws[|ws| - 1])
  }

  lemma {:induction false} FoldConcat<S, W>(f: (S, W) -> S, s: S, a: seq<W>, b: seq<W>)
    ensures Fold(f, s, a + b) == Fold(f, Fold(f, s, a), b)
  {
    if b == [] {
      assert a + b == a;
    } else {
      var n := |b| - 1;
      FoldConcat(f, s, a, b[..n]);
      assert (a + b)[..|a| + n] == a + b[..n];
    }
  }

  /** Every collected pair is what some item assigns. */
  lemma {:induction false} CollectFrom<A, K, V>(xs: seq<A>, entry: A -> Option<(K, V)>, p: (K, V))
    requires p in Collect(xs, entry)
    ensures exists k :: 0 <= k < |xs| && entry(xs[k]) == Some(p)
  {
    var n := |xs| - 1;
    if p in Collect(xs[..n], entry) {
      CollectFrom(xs[..n], entry, p);
      var k :| 0 <= k < n && entry(xs[..n][k]) == Some(p);
      assert xs[k] == xs[..n][k];
    }
  }

  /** Every item of the dict is one of the pairs put. */
  lemma {:induction false} PutAllFrom<K, V>(ps: seq<(K, V)>, i: nat)
    requires i < |PutAll(ps)|
    ensures PutAll(ps)[i] in ps
  {
    var n := |ps| - 1;
    var d := PutAll(ps[..n]);
    if PutAll(ps)[i].0 != ps[n].0 {
      PutAllFrom(ps[..n], i);
      assert d[i] in ps[..n];
    } else {
      assert ps[n] in ps;
    }
  }

  /** A prefix one longer is the prefix and the next item. */
  lemma TakeSnoc<T>(xs: seq<T>, i: nat)
    requires i < |xs|
    ensures xs[..i + 1] == xs[..i] + [xs[i]]
  {
  }

  /** One more item is one more step. */
  lemma FoldSnoc<S, W>(f: (S, W) -> S, s: S, ws: seq<W>, w: W)
    ensures Fold(f, s, ws + [w]) == f(Fold(f, s, ws), w)
  {
    assert (ws + [w])[..|ws|] == ws;
  }

  /** `d[p[0]] = p[1]`, as a step of a fold. */
  function PutPair<K(==), V>(d: Dict<K, V>, p: (K, V)): Dict<K, V> {
    Put(d, p.0, p.1)
  }

  /** Putting the pairs one at a time from `{}` is `PutAll`. */
  lemma {:induction false} FoldPutAll<K, V>(ps: seq<(K, V)>)
    ensures Fold(PutPair, [], ps) == PutAll(ps)
  {
    if ps != [] {
      FoldPutAll(ps[..|ps| - 1]);
    }
  }

  /** Filling a dict from items each of which may raise: the first failure
      stops the fill, an item that parses to `None` writes nothing. */
  function PutParsed<A, K(==), V, E>(parse: A -> Result<Option<(K, V)>, E>, xs: seq<A>): Result<Dict<K, V>, E> {
    if xs == [] then Success([])
    else
      match PutParsed(parse, xs[..|xs| - 1])
      case Failure(e) => Failure(e)
      case Success(d) =>
        match parse(xs[|xs| - 1])
        case Failure(e) => Failure(e)
        case Success(None) => Success(d)
        case Success(Some(p)) => Success(Put(d, p.0, p.1))
  }

  /** What an item writes once it parses. */
  function Parsed<A, K, V, E>(parse: A -> Result<Option<(K, V)>, E>): A -> Option<(K, V)> {
    x => if parse(x).Success? then parse(x).value else None
  }

  /** The fill fails iff some item fails; otherwise it puts the parsed pairs in
      order. */
  lemma {:induction false} PutParsedCollect<A, K, V, E>(parse: A -> Result<Option<(K, V)>, E>, xs: seq<A>)
    ensures PutParsed(parse, xs).Failure? <==> exists k :: 0 <= k < |xs| && parse(xs[k]).Failure?
    ensures PutParsed(parse, xs).Success? ==> PutParsed(parse, xs).value == PutAll(Collect(xs, Parsed(parse)))
  {
    if xs != [] {
      var n := |xs| - 1;
      PutParsedCollect(parse, xs[..n]);
      assert xs == xs[..n] + [xs[n]];
      CollectAppend(xs[..n], xs[n], Parsed(parse));
      if parse(xs[n]).Success? && parse(xs[n]).value.Some? {
        PutAllSnoc(Collect(xs[..n], Parsed(parse)), parse(xs[n]).value.value);
      }
      if k :| 0 <= k < n && parse(xs[..n][k]).Failure? {
        assert xs[k] == xs[..n][k];
      }
      if k :| 0 <= k < n && parse(xs[k]).Failure? {
        assert xs[..n][k] == xs[k];
      }
    }
  }

  /** A failure is never undone by reading further items. */
  lemma {:induction false} PutParsedFailureSticks<A, K, V, E>(parse: A -> Result<Option<(K, V)>, E>, xs: seq<A>, i: nat)
    requires i <= |xs| && PutParsed(parse, xs[..i]).Failure?
    ensures PutParsed(parse, xs) == PutParsed(parse, xs[..i])
    decreases |xs| - i
  {
    if i < |xs| {
      assert xs[..|xs| - 1][..i] == xs[..i];
      PutParsedFailureSticks(parse, xs[..|xs| - 1], i);
    } else {
      assert xs[..i] == xs;
    }
  }
}
