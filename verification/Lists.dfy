/** The three loops every indexing activity is built from: a lookup map filled
    in list order (the last entry for a key wins), a filtered list of rows, and
    the lookup of a row by its key in the deduplicated table. */
module Lists {
  datatype Option<+T> = None | Some(value: T)

  function Get<K, V>(m: map<K, V>, k: K): Option<V> {
    if k in m then Some(m[k]) else None
  }

  /** Maps each key to the last element of s that carries it. */
  function MapBy<A, K>(s: seq<A>, key: A -> K): map<K, A> {
    if s == [] then map[]
    else MapBy(s[..|s| - 1], key)[key(s[|s| - 1]) := s[|s| - 1]]
  }

  /** Whatever is found under a key carries that key, and every element's key is found. */
  lemma {:induction false} MapByFinds<A, K>(s: seq<A>, key: A -> K, k: K)
    ensures k in MapBy(s, key) <==> exists a :: a in s && key(a) == k
    ensures k in MapBy(s, key) ==> MapBy(s, key)[k] in s && key(MapBy(s, key)[k]) == k
  {
    if s != [] {
      var t, x := s[..|s| - 1], s[|s| - 1];
      MapByFinds(t, key, k);
      assert s == t + [x];
      assert forall a :: a in s <==> a in t || a == x;
    }
  }

  /** The rows f yields for the elements of s, in order. */
  function Collect<A, R>(s: seq<A>, f: A -> Option<R>): (rows: seq<R>)
    ensures |rows| <= |s|
  {
    if s == [] then []
    else
      var rows := Collect(s[..|s| - 1], f);
      match f(s[|s| - 1])
      case None => rows
      case Some(r) => rows + [r]
  }

  lemma SplitLast<A>(s: seq<A>)
    requires s != []
    ensures s == s[..|s| - 1] + [s[|s| - 1]]
    ensures multiset(s) == multiset(s[..|s| - 1]) + multiset{s[|s| - 1]}
  {
    var t := s[..|s| - 1] + [s[|s| - 1]];
    assert s == t;
  }

  ghost predicate Distinct<A, K>(s: seq<A>, key: A -> K) {
    forall i, j :: 0 <= i < j < |s| ==> key(s[i]) != key(s[j])
  }

  lemma CollectSnoc<A, R>(s: seq<A>, i: nat, f: A -> Option<R>)
    requires i < |s|
    ensures f(s[i]).None? ==> Collect(s[..i + 1], f) == Collect(s[..i], f)
    ensures f(s[i]).Some? ==> Collect(s[..i + 1], f) == Collect(s[..i], f) + [f(s[i]).value]
  {
    assert s[..i + 1][..i] == s[..i];
  }

  lemma {:induction false} CollectConcat<A, R>(s: seq<A>, t: seq<A>, f: A -> Option<R>)
    ensures Collect(s + t, f) == Collect(s, f) + Collect(t, f)
  {
    if t == [] {
      assert s + t == s;
    } else {
      CollectConcat(s, t[..|t| - 1], f);
      assert (s + t)[..|s + t| - 1] == s + t[..|t| - 1];
    }
  }

  /** A row is collected exactly when some element yields it. */
  lemma {:induction false} CollectIn<A, R>(s: seq<A>, f: A -> Option<R>, r: R)
    ensures r in Collect(s, f) <==> exists a :: a in s && f(a) == Some(r)
  {
    if s != [] {
      var t, x := s[..|s| - 1], s[|s| - 1];
      CollectIn(t, f, r);
      assert s == t + [x];
      assert forall a :: a in s <==> a in t || a == x;
    }
  }

  /** A key not repeated in s is absent from the elements before the last one. */
  lemma LastKeyIsNew<A, K>(s: seq<A>, key: A -> K)
    requires Distinct(s, key) && s != []
    ensures Distinct(s[..|s| - 1], key) && key(s[|s| - 1]) !in MapBy(s[..|s| - 1], key)
  {
    var t, x := s[..|s| - 1], s[|s| - 1];
    MapByFinds(t, key, key(x));
    forall a | a in t ensures key(a) != key(x) {
      var j :| 0 <= j < |t| && t[j] == a;
      assert s[j] == a;
    }
  }

  /** On a list without repeated keys, the row stored for a key is what f yields for the element with that key. */
  lemma {:induction false} CollectByKey<A, R, K>(s: seq<A>, f: A -> Option<R>, ka: A -> K, kr: R -> K, k: K)
    requires Distinct(s, ka)
    requires forall a: A :: f(a).Some? ==> kr(f(a).value) == ka(a)
    ensures Get(MapBy(Collect(s, f), kr), k) == match Get(MapBy(s, ka), k) case None => None case Some(a) => f(a)
  {
    if s != [] {
      var t, x := s[..|s| - 1], s[|s| - 1];
      LastKeyIsNew(s, ka);
      CollectByKey(t, f, ka, kr, k);
      if f(x).Some? {
        MapBySnoc(Collect(t, f), f(x).value, kr);
      }
    }
  }

  /** Collecting from a list without repeated keys yields rows without repeated keys. */
  lemma {:induction false} CollectDistinct<A, R, K>(s: seq<A>, f: A -> Option<R>, ka: A -> K, kr: R -> K)
    requires Distinct(s, ka)
    requires forall a: A :: f(a).Some? ==> kr(f(a).value) == ka(a)
    ensures Distinct(Collect(s, f), kr)
    ensures forall r :: r in Collect(s, f) ==> kr(r) in MapBy(s, ka)
  {
    if s != [] {
      var t, x := s[..|s| - 1], s[|s| - 1];
      LastKeyIsNew(s, ka);
      CollectDistinct(t, f, ka, kr);
    }
  }

  lemma MapBySnoc<A, K>(s: seq<A>, x: A, key: A -> K)
    ensures MapBy(s + [x], key) == MapBy(s, key)[key(x) := x]
  {
    assert (s + [x])[..|s|] == s;
  }

  /** Later rows shadow earlier ones under the same key. */
  lemma {:induction false} MapByConcat<A, K>(s: seq<A>, t: seq<A>, key: A -> K, k: K)
    ensures Get(MapBy(s + t, key), k) == if k in MapBy(t, key) then Some(MapBy(t, key)[k]) else Get(MapBy(s, key), k)
  {
    if t == [] {
      assert s + t == s;
    } else {
      var u := t[..|t| - 1];
      MapByConcat(s, u, key, k);
      assert (s + t)[..|s + t| - 1] == s + u;
    }
  }

  function Then<A, R>(a: Option<A>, f: A -> Option<R>): Option<R> {
    match a case None => None case Some(x) => f(x)
  }

  /** The row stored for a key when f is collected from one list and then g from another. */
  lemma TwoPasses<A, R, K>(s: seq<A>, f: A -> Option<R>, t: seq<A>, g: A -> Option<R>, ka: A -> K, kr: R -> K, k: K)
    requires Distinct(s, ka) && Distinct(t, ka)
    requires forall a: A :: (f(a).Some? ==> kr(f(a).value) == ka(a)) && (g(a).Some? ==> kr(g(a).value) == ka(a))
    ensures
      var second := Then(Get(MapBy(t, ka), k), g);
      Get(MapBy(Collect(s, f) + Collect(t, g), kr), k)
      == if second.Some? then second else Then(Get(MapBy(s, ka), k), f)
  {
    CollectByKey(s, f, ka, kr, k);
    CollectByKey(t, g, ka, kr, k);
    MapByConcat(Collect(s, f), Collect(t, g), kr, k);
  }

  /** Without repeated keys every element is found under its own key. */
  lemma {:induction false} DistinctFinds<A, K>(s: seq<A>, key: A -> K, a: A)
    requires Distinct(s, key) && a in s
    ensures Get(MapBy(s, key), key(a)) == Some(a)
  {
    var t, x := s[..|s| - 1], s[|s| - 1];
    LastKeyIsNew(s, key);
    if a != x {
      assert s == t + [x];
      DistinctFinds(t, key, a);
      MapByFinds(t, key, key(a));
    }
  }

  /** The lookup map of the selected elements: for a key it holds the last selected element that carries it. */
  lemma {:induction false} SelectedLast<A(!new), K>(s: seq<A>, f: A -> Option<A>, key: A -> K, k: K)
    requires forall a: A :: f(a).Some? ==> f(a).value == a
    ensures k in MapBy(Collect(s, f), key) <==> exists i :: 0 <= i < |s| && Selects(f, key, k, s[i])
    ensures forall i :: 0 <= i < |s| && Selects(f, key, k, s[i]) && (forall j :: i < j < |s| ==> !Selects(f, key, k, s[j]))
                        ==> k in MapBy(Collect(s, f), key) && MapBy(Collect(s, f), key)[k] == s[i]
  {
    if s != [] {
      var t, x := s[..|s| - 1], s[|s| - 1];
      SelectedLast(t, f, key, k);
      if f(x).Some? {
        MapBySnoc(Collect(t, f), x, key);
      }
      if Selects(f, key, k, x) {
        assert Selects(f, key, k, s[|s| - 1]);
      } else {
        assert forall i :: 0 <= i < |t| ==> t[i] == s[i];
        assert Get(MapBy(Collect(s, f), key), k) == Get(MapBy(Collect(t, f), key), k);
        forall i | 0 <= i < |s| && Selects(f, key, k, s[i]) && (forall j :: i < j < |s| ==> !Selects(f, key, k, s[j]))
          ensures k in MapBy(Collect(s, f), key) && MapBy(Collect(s, f), key)[k] == s[i]
        {
          assert i < |t| && Selects(f, key, k, t[i]);
          assert forall j :: i < j < |t| ==> !Selects(f, key, k, s[j]);
        }
      }
    }
  }

  predicate Selects<A, K(==)>(f: A -> Option<A>, key: A -> K, k: K, a: A) {
    f(a).Some? && key(a) == k
  }

  lemma {:induction false} KeepAll<A(!new)>(s: seq<A>, f: A -> Option<A>)
    requires forall a: A :: f(a) == Some(a)
    ensures Collect(s, f) == s
  {
    if s != [] {
      KeepAll(s[..|s| - 1], f);
    }
  }

  function Both<A, B, C>(f: A -> Option<B>, g: B -> Option<C>): A -> Option<C> {
    (a: A) => Then(f(a), g)
  }

  lemma {:induction false} CollectTwice<A, B, C>(s: seq<A>, f: A -> Option<B>, g: B -> Option<C>)
    ensures Collect(Collect(s, f), g) == Collect(s, Both(f, g))
  {
    if s != [] {
      var t, x := s[..|s| - 1], s[|s| - 1];
      CollectTwice(t, f, g);
      if f(x).Some? {
        assert (Collect(t, f) + [f(x).value])[..|Collect(t, f)|] == Collect(t, f);
      }
    }
  }

  /** The lookup-map loop of the activities. */
  method IndexBy<A, K(==)>(s: seq<A>, key: A -> K) returns (m: map<K, A>)
    ensures m == MapBy(s, key)
  {
    m := map[];
    for i := 0 to |s|
      invariant m == MapBy(s[..i], key)
    {
      assert s[..i + 1][..i] == s[..i];
      m := m[key(s[i]) := s[i]];
    }
    assert s[..|s|] == s;
  }

  /** The event-map loop: keep the elements f selects, the last one per key. */
  method IndexSelected<A, B, K(==)>(s: seq<A>, f: A -> Option<B>, key: B -> K) returns (m: map<K, B>)
    ensures m == MapBy(Collect(s, f), key)
  {
    m := map[];
    for i := 0 to |s|
      invariant m == MapBy(Collect(s[..i], f), key)
    {
      CollectSnoc(s, i, f);
      match f(s[i]) {
        case None =>
        case Some(b) =>
          MapBySnoc(Collect(s[..i], f), b, key);
          m := m[key(b) := b];
      }
    }
    assert s[..|s|] == s;
  }

  /** The filtered-list loop. */
  method CollectRows<A, R>(s: seq<A>, f: A -> Option<R>) returns (rows: seq<R>)
    ensures rows == Collect(s, f)
  {
    rows := [];
    for i := 0 to |s|
      invariant rows == Collect(s[..i], f)
    {
      CollectSnoc(s, i, f);
      match f(s[i]) {
        case None =>
        case Some(r) => rows := rows + [r];
      }
    }
    assert s[..|s|] == s;
  }

  /** The parts of each element, one after another. */
  function Flatten<P, A>(s: seq<P>, parts: P -> seq<A>): seq<A> {
    if s == [] then [] else Flatten(s[..|s| - 1], parts) + parts(s[|s| - 1])
  }

  lemma {:induction false} FlattenIn<P, A>(s: seq<P>, parts: P -> seq<A>, a: A)
    ensures a in Flatten(s, parts) <==> exists p :: p in s && a in parts(p)
  {
    if s != [] {
      var t, x := s[..|s| - 1], s[|s| - 1];
      FlattenIn(t, parts, a);
      assert s == t + [x];
      assert forall p :: p in s <==> p in t || p == x;
    }
  }

  /** The nested filtered-list loop. */
  method CollectNested<P, A, R>(s: seq<P>, parts: P -> seq<A>, f: A -> Option<R>) returns (rows: seq<R>)
    ensures rows == Collect(Flatten(s, parts), f)
  {
    rows := [];
    for i := 0 to |s|
      invariant rows == Collect(Flatten(s[..i], parts), f)
    {
      var inner := parts(s[i]);
      ghost var done := Flatten(s[..i], parts);
      for j := 0 to |inner|
        invariant rows == Collect(done, f) + Collect(inner[..j], f)
      {
        CollectSnoc(inner, j, f);
        match f(inner[j]) {
          case None =>
          case Some(r) => rows := rows + [r];
        }
      }
      assert inner[..|inner|] == inner;
      CollectConcat(done, inner, f);
      assert s[..i + 1][..i] == s[..i];
    }
    assert s[..|s|] == s;
  }
}
