/** Python's `dict` as an insertion-ordered association list.

    A key keeps the position of its first insertion; assigning to an existing key
    replaces the value in place; iteration follows insertion order.  Every dict built
    by `Set`/`Update` has distinct keys, and lookups return the first match, which on
    such a dict is the only one. */
module Dict {
  import opened Wrappers

  type Dict<K, V> = seq<(K, V)>

  /** The keys in iteration order. */
  function Keys<K, V>(d: Dict<K, V>): (ks: seq<K>)
    ensures |ks| == |d|
    ensures forall i :: 0 <= i < |d| ==> ks[i] == d[i].0
  {
    if d == [] then [] else [d[0].0] + Keys(d[1..])
  }

  predicate Distinct<T(==)>(s: seq<T>) {
    forall i, j :: 0 <= i < j < |s| ==> s[i] != s[j]
  }

  /** `d.get(k)`: the value stored under `k`, if any. */
  function Get<K(==), V>(d: Dict<K, V>, k: K): (r: Option<V>)
    ensures r.None? <==> k !in Keys(d)
    ensures r.Some? ==> (k, r.value) in d
  {
    if d == [] then None
    else if d[0].0 == k then Some(d[0].1)
    else Get(d[1..], k)
  }

  /** `d[k] = v`: replaces the value of an existing key in place, appends a new key. */
  function Set<K(==,!new), V>(d: Dict<K, V>, k: K, v: V): (r: Dict<K, V>)
    ensures SetSpec(d, k, v, r)
  {
    if d == [] then [(k, v)]
    else if d[0].0 == k then
      SetHead(d, k, v);
      [(k, v)] + d[1..]
    else
      var rest := Set(d[1..], k, v);
      SetStep(d, k, v, rest);
      [d[0]] + rest
  }

  /** What `d[k] = v` leaves behind in `r`: `k` maps to `v`, every other key is
      unchanged, an existing key keeps its position and a new key goes last. */
  ghost predicate SetSpec<K(!new), V>(d: Dict<K, V>, k: K, v: V, r: Dict<K, V>) {
    && Get(r, k) == Some(v)
    && (forall k' :: k' != k ==> Get(r, k') == Get(d, k'))
    && Keys(r) == if k in Keys(d) then Keys(d) else Keys(d) + [k]
  }

  lemma SetHead<K(!new), V>(d: Dict<K, V>, k: K, v: V)
    requires d != [] && d[0].0 == k
    ensures SetSpec(d, k, v, [(k, v)] + d[1..])
  {
    KeysCons((k, v), d[1..]);
    KeysCons(d[0], d[1..]);
    assert d == [d[0]] + d[1..];
    GetConsAll((k, v), d[1..]);
    GetConsAll(d[0], d[1..]);
  }

  lemma SetStep<K(!new), V>(d: Dict<K, V>, k: K, v: V, rest: Dict<K, V>)
    requires d != [] && d[0].0 != k
    requires SetSpec(d[1..], k, v, rest)
    ensures SetSpec(d, k, v, [d[0]] + rest)
  {
    SetStepGet(d, k, v, rest);
    SetStepKeys(d, k, rest);
  }

  lemma SetStepGet<K(!new), V>(d: Dict<K, V>, k: K, v: V, rest: Dict<K, V>)
    requires d != [] && d[0].0 != k
    requires Get(rest, k) == Some(v)
    requires forall k' :: k' != k ==> Get(rest, k') == Get(d[1..], k')
    ensures Get([d[0]] + rest, k) == Some(v)
    ensures forall k' :: k' != k ==> Get([d[0]] + rest, k') == Get(d, k')
  {
    assert ([d[0]] + rest)[1..] == rest;
  }

  lemma SetStepKeys<K(!new), V>(d: Dict<K, V>, k: K, rest: Dict<K, V>)
    requires d != [] && d[0].0 != k
    requires Keys(rest) == if k in Keys(d[1..]) then Keys(d[1..]) else Keys(d[1..]) + [k]
    ensures Keys([d[0]] + rest) == if k in Keys(d) then Keys(d) else Keys(d) + [k]
  {
    KeysCons(d[0], rest);
    KeysCons(d[0], d[1..]);
    assert d == [d[0]] + d[1..];
    assert k in Keys(d) <==> k in Keys(d[1..]);
    if k !in Keys(d[1..]) {
      assert [d[0].0] + (Keys(d[1..]) + [k]) == ([d[0].0] + Keys(d[1..])) + [k];
    }
  }

  /** A non-empty dict has an entry for its first key. */
  lemma NonEmptyHasKey<K, V>(d: Dict<K, V>)
    ensures d != [] ==> Get(d, d[0].0) == Some(d[0].1)
  {
  }

  /** Lookup finds the first entry with the key. */
  lemma {:induction false} GetFirstAt<K, V>(d: Dict<K, V>, i: nat, k: K)
    requires i < |d| && d[i].0 == k
    requires forall j :: 0 <= j < i ==> d[j].0 != k
    ensures Get(d, k) == Some(d[i].1)
  {
    if i > 0 {
      GetFirstAt(d[1..], i - 1, k);
    }
  }

  /** With distinct keys, every entry is what lookup of its key finds. */
  lemma GetAtDistinct<K, V>(d: Dict<K, V>, i: nat)
    requires Distinct(Keys(d)) && i < |d|
    ensures Get(d, d[i].0) == Some(d[i].1)
  {
    assert forall j :: 0 <= j < i ==> Keys(d)[j] != Keys(d)[i];
    GetFirstAt(d, i, d[i].0);
  }

  /** Assignment never introduces a duplicate key. */
  lemma SetKeepsDistinct<K(!new), V>(d: Dict<K, V>, k: K, v: V)
    ensures Distinct(Keys(d)) ==> Distinct(Keys(Set(d, k, v)))
  {
    if Distinct(Keys(d)) && k !in Keys(d) {
      DistinctAppend(Keys(d), k);
    }
  }

  lemma DistinctAppend<T>(s: seq<T>, x: T)
    requires Distinct(s) && x !in s
    ensures Distinct(s + [x])
  {
    assert forall i :: 0 <= i < |s| ==> (s + [x])[i] == s[i];
  }

  lemma GetConsAll<K(!new), V>(p: (K, V), d: Dict<K, V>)
    ensures forall k :: Get([p] + d, k) == if p.0 == k then Some(p.1) else Get(d, k)
  {
    assert ([p] + d)[1..] == d;
  }

  lemma KeysCons<K, V>(p: (K, V), d: Dict<K, V>)
    ensures Keys([p] + d) == [p.0] + Keys(d)
  {
    assert ([p] + d)[1..] == d;
  }


  lemma KeysAppend<K, V>(a: Dict<K, V>, b: Dict<K, V>)
    ensures Keys(a + b) == Keys(a) + Keys(b)
  {
    assert forall i :: 0 <= i < |a| + |b| ==> Keys(a + b)[i] == (Keys(a) + Keys(b))[i];
  }

  /** The value of the LAST entry with key `k` in a list of pairs: what a dict
      built from the pairs in order ends up holding for `k`. */
  function LastValue<K(==), V>(ps: seq<(K, V)>, k: K): (r: Option<V>)
    ensures r.None? <==> k !in Keys(ps)
  {
    if ps == [] then None
    else
      match LastValue(ps[1..], k)
      case Some(v) => Some(v)
      case None => if ps[0].0 == k then Some(ps[0].1) else None
  }

  /** The last pair for a key decides its value. */
  lemma {:induction false} LastValueAppend<K, V>(ps: seq<(K, V)>, k: K, v: V)
    ensures LastValue(ps + [(k, v)], k) == Some(v)
  {
    if ps == [] {
      assert ps + [(k, v)] == [(k, v)];
    } else {
      assert (ps + [(k, v)])[1..] == ps[1..] + [(k, v)];
      LastValueAppend(ps[1..], k, v);
    }
  }

  /** `d.update(e)`: assigns every pair of `e` in order. */
  function Update<K(==,!new), V>(d: Dict<K, V>, e: seq<(K, V)>): (r: Dict<K, V>)
    ensures forall k :: Get(r, k) == if LastValue(e, k).Some? then LastValue(e, k) else Get(d, k)
    ensures Keys(d) <= Keys(r)
    ensures Distinct(Keys(d)) ==> Distinct(Keys(r))
    decreases |e|
  {
    if e == [] then d
    else
      SetKeepsDistinct(d, e[0].0, e[0].1);
      Update(Set(d, e[0].0, e[0].1), e[1..])
  }

  /** `dict(ps)` / `{a: b for (a, b) in ps}`: each key once, at the position of its
      first pair, holding the value of its last pair. */
  function FromPairs<K(==,!new), V>(ps: seq<(K, V)>): (r: Dict<K, V>)
    ensures forall k :: Get(r, k) == LastValue(ps, k)
    ensures Distinct(Keys(r))
    ensures Keys(r) == Firsts(Keys(ps))
  {
    FromPairsKeys(ps);
    Update([], ps)
  }

  /** The position of the first occurrence of `x` in `s`. */
  function FirstIndex<T(==)>(s: seq<T>, x: T): (i: nat)
    requires x in s
    ensures i < |s| && s[i] == x && x !in s[..i]
  {
    if s[0] == x then 0
    else
      var i := 1 + FirstIndex(s[1..], x);
      assert s[..i] == [s[0]] + s[1..][..i - 1];
      i
  }

  /** The distinct elements of `s`, in the order of their first occurrence. */
  function Firsts<T(==,!new)>(s: seq<T>): (r: seq<T>)
    ensures forall x :: x in r <==> x in s
    ensures Distinct(r)
    ensures forall i, j :: 0 <= i < j < |r| ==> FirstIndex(s, r[i]) < FirstIndex(s, r[j])
  {
    if s == [] then []
    else
      var init := s[..|s| - 1];
      var last := s[|s| - 1];
      assert s == init + [last];
      var r := Firsts(init);
      FirstIndexPrefix(init, last);
      if last in init then r
      else
        DistinctAppend(r, last);
        FirstsAppendOrder(init, r, last);
        r + [last]
  }

  /** Extending a sequence keeps the first occurrence of what it already held. */
  lemma FirstIndexPrefix<T(!new)>(init: seq<T>, last: T)
    ensures forall x :: x in init ==> FirstIndex(init + [last], x) == FirstIndex(init, x)
    ensures last !in init ==> FirstIndex(init + [last], last) == |init|
  {
    var s := init + [last];
    forall x | x in init
      ensures FirstIndex(s, x) == FirstIndex(init, x)
    {
      var i := FirstIndex(init, x);
      assert s[..i] == init[..i];
      assert s[i] == x;
    }
  }

  lemma FirstsAppendOrder<T(!new)>(init: seq<T>, r: seq<T>, last: T)
    requires last !in init
    requires forall i :: 0 <= i < |r| ==> r[i] in init
    requires forall i, j :: 0 <= i < j < |r| ==> FirstIndex(init, r[i]) < FirstIndex(init, r[j])
    ensures forall i :: 0 <= i < |r| + 1 ==> (r + [last])[i] in init + [last]
    ensures forall i, j :: 0 <= i < j < |r| + 1 ==>
      FirstIndex(init + [last], (r + [last])[i]) < FirstIndex(init + [last], (r + [last])[j])
  {
    FirstIndexPrefix(init, last);
    var r' := r + [last];
    forall i, j | 0 <= i < j < |r'|
      ensures FirstIndex(init + [last], r'[i]) < FirstIndex(init + [last], r'[j])
    {
      assert r'[i] == r[i];
      if j < |r| {
        assert r'[j] == r[j];
      }
    }
  }

  /** `d.update(e + [p])` is `d.update(e)` followed by assigning `p`. */
  lemma {:induction false} UpdateAppend<K(!new), V>(d: Dict<K, V>, e: seq<(K, V)>, p: (K, V))
    ensures Update(d, e + [p]) == Set(Update(d, e), p.0, p.1)
    decreases |e|
  {
    if e == [] {
      assert e + [p] == [p];
    } else {
      assert (e + [p])[0] == e[0];
      assert (e + [p])[1..] == e[1..] + [p];
      UpdateAppend(Set(d, e[0].0, e[0].1), e[1..], p);
    }
  }

  /** A dict built from pairs lists each key at its first pair. */
  lemma {:induction false} FromPairsKeys<K(!new), V>(ps: seq<(K, V)>)
    ensures Keys(Update([], ps)) == Firsts(Keys(ps))
    decreases |ps|
  {
    if ps != [] {
      var q := ps[..|ps| - 1];
      var p := ps[|ps| - 1];
      assert ps == q + [p];
      var u := Update([], q);
      FromPairsKeys(q);
      UpdateAppend([], q, p);
      SetKeys(u, p.0, p.1);
      KeysAppend(q, [p]);
      assert Keys([p]) == [p.0];
      assert Keys(ps) == Keys(q) + [p.0];
      assert Keys(u) == Firsts(Keys(q));
      assert Update([], ps) == Set(u, p.0, p.1);
      assert Keys(Update([], ps)) == if p.0 in Keys(u) then Keys(u) else Keys(u) + [p.0];
      FirstsNext(Keys(u), Keys(q), p.0, Keys(ps), Keys(Update([], ps)));
    }
  }

  /** One more key extends the first occurrences iff it is new. */
  lemma FirstsNext<T(!new)>(firsts: seq<T>, init: seq<T>, last: T, s: seq<T>, next: seq<T>)
    requires firsts == Firsts(init) && s == init + [last]
    requires next == if last in firsts then firsts else firsts + [last]
    ensures next == Firsts(s)
  {
    FirstsStep(init, last, s);
  }

  lemma FirstsStep<T(!new)>(init: seq<T>, last: T, s: seq<T>)
    requires s == init + [last]
    ensures Firsts(s) == if last in init then Firsts(init) else Firsts(init) + [last]
  {
    assert s[..|s| - 1] == init;
  }

  lemma SetKeys<K(!new), V>(d: Dict<K, V>, k: K, v: V)
    ensures Keys(Set(d, k, v)) == if k in Keys(d) then Keys(d) else Keys(d) + [k]
  {
  }

  /** On a list with distinct keys the last entry for a key is also the first. */
  lemma {:induction false} LastValueIsGet<K, V>(ps: seq<(K, V)>, k: K)
    requires Distinct(Keys(ps))
    ensures LastValue(ps, k) == Get(ps, k)
  {
    if ps != [] {
      assert Keys(ps)[1..] == Keys(ps[1..]);
      LastValueIsGet(ps[1..], k);
      if ps[0].0 == k {
        assert k !in Keys(ps[1..]) by {
          forall i | 0 <= i < |ps[1..]|
            ensures Keys(ps[1..])[i] != k
          {
            assert Keys(ps)[i + 1] == Keys(ps[1..])[i];
          }
        }
      }
    }
  }
}
