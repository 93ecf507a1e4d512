/** Sums over the values of a finite map, of a numeric weight or of a bag, and sums of bags over a bag. */
module MapSum {

  ghost function Sum<K, V>(m: map<K, V>, w: V -> nat): nat {
    if m == map[] then 0
    else
      var k :| k in m;
      w(m[k]) + Sum(m - {k}, w)
  }

  lemma {:induction false} SumRemove<K, V>(m: map<K, V>, k: K, w: V -> nat)
    requires k in m
    ensures Sum(m, w) == w(m[k]) + Sum(m - {k}, w)
    decreases |m|
  {
    var j :| j in m && Sum(m, w) == w(m[j]) + Sum(m - {j}, w);
    if j != k {
      SumRemove(m - {j}, k, w);
      SumRemove(m - {k}, j, w);
      assert m - {j} - {k} == m - {k} - {j};
    }
  }

  lemma SumWithout<K, V>(m: map<K, V>, k: K, w: V -> nat)
    ensures Sum(m, w) == Sum(m - {k}, w) + if k in m then w(m[k]) else 0
  {
    if k in m { SumRemove(m, k, w); } else { assert m - {k} == m; }
  }

  /** Setting the weight of one key. */
  lemma SumSet<K, V>(m: map<K, V>, k: K, v: V, w: V -> nat)
    ensures Sum(m[k := v], w) == w(v) + Sum(m - {k}, w)
    ensures Sum(m[k := v], w) == w(v) + Sum(m, w) - if k in m then w(m[k]) else 0
  {
    SumRemove(m[k := v], k, w);
    assert m[k := v] - {k} == m - {k};
    if k in m { SumRemove(m, k, w); } else { assert m - {k} == m; }
  }

  lemma {:induction false} SumAtMost<K, V>(m: map<K, V>, w: V -> nat, w': V -> nat)
    requires forall k :: k in m ==> w(m[k]) <= w'(m[k])
    ensures Sum(m, w) <= Sum(m, w')
    decreases |m|
  {
    if m != map[] {
      var k :| k in m;
      SumAtMost(m - {k}, w, w');
      SumRemove(m, k, w);
      SumRemove(m, k, w');
    }
  }

  lemma {:induction false} SumOfOnes<K, V>(m: map<K, V>, w: V -> nat)
    requires forall k :: k in m ==> w(m[k]) == 1
    ensures Sum(m, w) == |m|
    decreases |m|
  {
    if m != map[] {
      var k :| k in m;
      SumOfOnes(m - {k}, w);
      SumRemove(m, k, w);
      assert (m - {k}).Keys == m.Keys - {k};
    }
  }

  lemma {:induction false} SumOfNone<K, V>(m: map<K, V>, w: V -> nat)
    requires forall k :: k in m ==> w(m[k]) == 0
    ensures Sum(m, w) == 0
    decreases |m|
  {
    if m != map[] {
      var k :| k in m;
      SumOfNone(m - {k}, w);
      SumRemove(m, k, w);
    }
  }

  lemma {:induction false} SumAdds<K, V>(m: map<K, V>, w: V -> nat, w': V -> nat, both: V -> nat)
    requires forall k :: k in m ==> both(m[k]) == w(m[k]) + w'(m[k])
    ensures Sum(m, both) == Sum(m, w) + Sum(m, w')
    decreases |m|
  {
    if m != map[] {
      var k :| k in m;
      SumAdds(m - {k}, w, w', both);
      SumRemove(m, k, w);
      SumRemove(m, k, w');
      SumRemove(m, k, both);
    }
  }

  /** The bags of all values together. */
  ghost function Gathered<K, V, T>(m: map<K, V>, bag: V -> multiset<T>): multiset<T> {
    if m == map[] then multiset{}
    else
      var k :| k in m;
      bag(m[k]) + Gathered(m - {k}, bag)
  }

  lemma {:induction false} GatheredRemove<K, V, T>(m: map<K, V>, k: K, bag: V -> multiset<T>)
    requires k in m
    ensures Gathered(m, bag) == bag(m[k]) + Gathered(m - {k}, bag)
    decreases |m|
  {
    var j :| j in m && Gathered(m, bag) == bag(m[j]) + Gathered(m - {j}, bag);
    if j != k {
      GatheredRemove(m - {j}, k, bag);
      GatheredRemove(m - {k}, j, bag);
      assert m - {j} - {k} == m - {k} - {j};
    }
  }

  lemma GatheredSet<K, V, T>(m: map<K, V>, k: K, v: V, bag: V -> multiset<T>)
    ensures Gathered(m[k := v], bag) == bag(v) + Gathered(m - {k}, bag)
  {
    GatheredRemove(m[k := v], k, bag);
    assert m[k := v] - {k} == m - {k};
  }

  /** A value whose bag grows makes the whole grow by as much. */
  lemma GatheredGrow<K, V, T>(m: map<K, V>, k: K, v: V, bag: V -> multiset<T>, extra: multiset<T>)
    requires k in m && bag(v) == bag(m[k]) + extra
    ensures Gathered(m[k := v], bag) == Gathered(m, bag) + extra
  {
    GatheredSet(m, k, v, bag);
    GatheredRemove(m, k, bag);
  }

  lemma {:induction false} GatheredFrom<K, V, T>(m: map<K, V>, bag: V -> multiset<T>, x: T) returns (k: K)
    requires x in Gathered(m, bag)
    ensures k in m && x in bag(m[k])
    decreases |m|
  {
    k :| k in m;
    GatheredRemove(m, k, bag);
    if x !in bag(m[k]) {
      k := GatheredFrom(m - {k}, bag, x);
    }
  }

  /** The bags of all members of a bag together. */
  ghost function Union<K, T>(ks: multiset<K>, bag: K -> multiset<T>): multiset<T> {
    if ks == multiset{} then multiset{}
    else
      var k :| k in ks;
      bag(k) + Union(ks - multiset{k}, bag)
  }

  lemma Exchange<T>(a: multiset<T>, b: multiset<T>, c: multiset<T>)
    ensures a + (b + c) == b + (a + c)
  {
  }

  lemma MoveLast<T>(a: multiset<T>, b: multiset<T>, c: multiset<T>)
    ensures a + (b + c) == (a + c) + b && (a + b) + c == (a + c) + b
  {
  }

  lemma {:induction false} UnionRemove<K, T>(ks: multiset<K>, k: K, bag: K -> multiset<T>)
    requires k in ks
    ensures Union(ks, bag) == bag(k) + Union(ks - multiset{k}, bag)
    decreases |ks|
  {
    var j :| j in ks && Union(ks, bag) == bag(j) + Union(ks - multiset{j}, bag);
    if j != k {
      UnionRemove(ks - multiset{j}, k, bag);
      UnionRemove(ks - multiset{k}, j, bag);
      assert ks - multiset{j} - multiset{k} == ks - multiset{k} - multiset{j};
      Exchange(bag(j), bag(k), Union(ks - multiset{k} - multiset{j}, bag));
    }
  }

  lemma UnionInsert<K, T>(ks: multiset<K>, k: K, bag: K -> multiset<T>)
    ensures Union(ks + multiset{k}, bag) == bag(k) + Union(ks, bag)
  {
    UnionRemove(ks + multiset{k}, k, bag);
    assert ks + multiset{k} - multiset{k} == ks;
  }

  lemma {:induction false} UnionAdd<K, T>(a: multiset<K>, b: multiset<K>, bag: K -> multiset<T>)
    ensures Union(a + b, bag) == Union(a, bag) + Union(b, bag)
    decreases |a|
  {
    if a == multiset{} {
      assert a + b == b;
    } else {
      var k :| k in a;
      var rest := a - multiset{k};
      UnionAdd(rest, b, bag);
      UnionRemove(a, k, bag);
      UnionInsert(rest + b, k, bag);
      assert rest + b + multiset{k} == a + b;
      Assoc(bag(k), Union(rest, bag), Union(b, bag));
    }
  }

  lemma Assoc<T>(a: multiset<T>, b: multiset<T>, c: multiset<T>)
    ensures a + (b + c) == (a + b) + c
  {
  }

  lemma Cancel<T>(a: multiset<T>, x: multiset<T>, y: multiset<T>)
    requires a + x == a + y
    ensures x == y
  {
    forall e ensures x[e] == y[e] { assert (a + x)[e] == (a + y)[e]; }
  }

  lemma CancelRight<T>(x: multiset<T>, y: multiset<T>, a: multiset<T>)
    requires x + a == y + a
    ensures x == y
  {
    assert a + x == x + a && a + y == y + a;
    Cancel(a, x, y);
  }

  lemma Regroup<T>(a: multiset<T>, b: multiset<T>, c: multiset<T>, d: multiset<T>)
    ensures (a + b) + (c + d) == (a + c) + (b + d)
  {
  }

  /**
   In a map whose values link to keys, let `under` be a value's own bag and the bags under
   what it links to. Over any such map the bags under its keys are the own bags and the
   bags under all links.
   */
  lemma {:induction false} UnderLinks<K, V, T>(
    m: map<K, V>, own: V -> multiset<T>, links: V -> multiset<K>, under: K -> multiset<T>)
    requires forall k :: k in m ==> under(k) == own(m[k]) + Union(links(m[k]), under)
    ensures Union(multiset(m.Keys), under) == Gathered(m, own) + Union(Gathered(m, links), under)
    decreases |m|
  {
    if m == map[] {
      assert multiset(m.Keys) == multiset{};
    } else {
      var k :| k in m;
      var rest := m - {k};
      UnderLinks(rest, own, links, under);
      GatheredRemove(m, k, own);
      GatheredRemove(m, k, links);
      UnionAdd(links(m[k]), Gathered(rest, links), under);
      KeysWithout(m, k);
      UnionRemove(multiset(m.Keys), k, under);
      Regroup(own(m[k]), Union(links(m[k]), under), Gathered(rest, own), Union(Gathered(rest, links), under));
    }
  }

  lemma KeysWithout<K, V>(m: map<K, V>, k: K)
    requires k in m
    ensures k in multiset(m.Keys)
    ensures multiset(m.Keys) - multiset{k} == multiset(m.Keys - {k})
    ensures (m - {k}).Keys == m.Keys - {k}
  {
  }

  /** If every key but the root is linked exactly once, what lies under the root is everything. */
  lemma UnderRoot<K, V, T>(
    m: map<K, V>, own: V -> multiset<T>, links: V -> multiset<K>, under: K -> multiset<T>, root: K)
    requires forall k :: k in m ==> under(k) == own(m[k]) + Union(links(m[k]), under)
    requires root in m && Gathered(m, links) == multiset(m.Keys - {root})
    ensures under(root) == Gathered(m, own)
  {
    UnderLinks(m, own, links, under);
    KeysWithout(m, root);
    UnionRemove(multiset(m.Keys), root, under);
    CancelRight(under(root), Gathered(m, own), Union(Gathered(m, links), under));
  }
}
