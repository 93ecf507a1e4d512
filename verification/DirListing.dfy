/**
 Directory listing over an ordered map of path strings: `list_dir` of the
 worker's VFS. The listing seeks to the first key not below the directory's
 prefix, walks while keys still start with it and keeps the suffixes without a
 separator. It is proved equal to filtering every key of the map.
 */
module DirListing {

  /** The order of a BTreeMap over strings: code point by code point. */
  predicate LexLess(a: string, b: string) {
    b != "" && (a == "" || a[0] < b[0] || (a[0] == b[0] && LexLess(a[1..], b[1..])))
  }

  predicate StartsWith(k: string, prefix: string) {
    prefix <= k
  }

  predicate Ascending(ks: seq<string>) {
    forall i, j :: 0 <= i < j < |ks| ==> LexLess(ks[i], ks[j])
  }

  lemma {:induction false} LexTransitive(a: string, b: string, c: string)
    requires LexLess(a, b) && LexLess(b, c)
    ensures LexLess(a, c)
  {
    if a != "" && a[0] == b[0] == c[0] {
      LexTransitive(a[1..], b[1..], c[1..]);
    }
  }

  lemma {:induction false} LexTotal(a: string, b: string)
    ensures LexLess(a, b) || a == b || LexLess(b, a)
    ensures !(LexLess(a, b) && LexLess(b, a)) && !LexLess(a, a)
  {
    if a != "" {
      LexTotal(a[1..], a[1..]);
      if b != "" {
        LexTotal(a[1..], b[1..]);
        assert a[0] == b[0] && a[1..] == b[1..] ==> a == b by {
          assert a == [a[0]] + a[1..] && b == [b[0]] + b[1..];
        }
      }
    }
  }

  lemma {:induction false} LexCancelPrefix(p: string, x: string, y: string)
    ensures LexLess(p + x, p + y) == LexLess(x, y)
  {
    if p == "" {
      assert p + x == x && p + y == y;
    } else {
      assert (p + x)[1..] == p[1..] + x && (p + y)[1..] == p[1..] + y;
      LexCancelPrefix(p[1..], x, y);
    }
  }

  /** Keys with a given prefix are contiguous and come no earlier than the prefix itself. */
  lemma {:induction false} PrefixContiguous(p: string, a: string, b: string)
    requires StartsWith(b, p)
    ensures !LexLess(b, p)
    ensures !LexLess(a, p) && LexLess(a, b) ==> StartsWith(a, p)
  {
    if p != "" {
      assert b[0] == p[0] && StartsWith(b[1..], p[1..]);
      if a != "" {
        PrefixContiguous(p[1..], a[1..], b[1..]);
        if !LexLess(a, p) && LexLess(a, b) {
          assert a == [a[0]] + a[1..] && p == [p[0]] + p[1..];
        }
      } else {
        PrefixContiguous(p[1..], b[1..], b[1..]);
      }
    }
  }

  // ---- Iterating a map in key order ----------------------------------------

  predicate IsLeast(k: string, s: set<string>) {
    k in s && forall j :: j in s ==> j == k || LexLess(k, j)
  }

  lemma LeastExists(s: set<string>) returns (k: string)
    requires s != {}
    ensures IsLeast(k, s)
    decreases |s|
  {
    k :| k in s;
    if s != {k} {
      var m := LeastExists(s - {k});
      LexTotal(k, m);
      if LexLess(m, k) {
        k := m;
      } else {
        forall j | j in s ensures j == k || LexLess(k, j) {
          if j != k && j != m { LexTransitive(k, m, j); }
        }
      }
    }
  }

  lemma LeastUnique(s: set<string>)
    requires s != {}
    ensures exists k :: IsLeast(k, s)
    ensures forall k, l :: IsLeast(k, s) && IsLeast(l, s) ==> k == l
  {
    var k := LeastExists(s);
    forall a, b | a in s && b in s && LexLess(a, b) ensures !LexLess(b, a) { LexTotal(a, b); }
  }

  /** The keys in the order the map iterates them. */
  function SortedKeys(s: set<string>): (ks: seq<string>)
    ensures Ascending(ks) && forall k :: k in ks <==> k in s
  {
    if s == {} then []
    else
      LeastUnique(s);
      var k :| k in s && IsLeast(k, s);
      [k] + SortedKeys(s - {k})
  }

  // ---- The scan -------------------------------------------------------------

  /** `range(lo..)` on an ascending key sequence. */
  function RangeFrom(ks: seq<string>, lo: string): seq<string> {
    if ks != [] && LexLess(ks[0], lo) then RangeFrom(ks[1..], lo) else ks
  }

  /** `take_while(|k| k.starts_with(prefix))` */
  function TakePrefixed(ks: seq<string>, prefix: string): seq<string> {
    if ks != [] && StartsWith(ks[0], prefix) then [ks[0]] + TakePrefixed(ks[1..], prefix) else []
  }

  /** `filter_map`: the suffix of every key of the given prefix, if it has no separator. */
  function ChildNames(ks: seq<string>, prefix: string): seq<string> {
    if ks == [] then []
    else if StartsWith(ks[0], prefix) && '/' !in ks[0][|prefix|..] then
      [ks[0][|prefix|..]] + ChildNames(ks[1..], prefix)
    else ChildNames(ks[1..], prefix)
  }

  function Scan(keys: set<string>, prefix: string): seq<string> {
    ChildNames(TakePrefixed(RangeFrom(SortedKeys(keys), prefix), prefix), prefix)
  }

  lemma {:induction false} NoneLeft(ks: seq<string>, prefix: string)
    requires forall i :: 0 <= i < |ks| ==> !StartsWith(ks[i], prefix)
    ensures ChildNames(ks, prefix) == []
  {
    if ks != [] { NoneLeft(ks[1..], prefix); }
  }

  /** Once the scan stops, no later key has the prefix. */
  lemma {:induction false} TakeLosesNothing(ks: seq<string>, prefix: string)
    requires Ascending(ks) && forall i :: 0 <= i < |ks| ==> !LexLess(ks[i], prefix)
    ensures ChildNames(TakePrefixed(ks, prefix), prefix) == ChildNames(ks, prefix)
  {
    if ks != [] {
      if StartsWith(ks[0], prefix) {
        TakeLosesNothing(ks[1..], prefix);
        var t := TakePrefixed(ks, prefix);
        assert t[1..] == TakePrefixed(ks[1..], prefix);
      } else {
        forall i | 0 <= i < |ks| ensures !StartsWith(ks[i], prefix) {
          if i > 0 && StartsWith(ks[i], prefix) { PrefixContiguous(prefix, ks[0], ks[i]); }
        }
        NoneLeft(ks, prefix);
      }
    }
  }

  /** Keys skipped by the seek do not have the prefix. */
  lemma {:induction false} RangeLosesNothing(ks: seq<string>, prefix: string)
    requires Ascending(ks)
    ensures ChildNames(RangeFrom(ks, prefix), prefix) == ChildNames(ks, prefix)
    ensures Ascending(RangeFrom(ks, prefix))
    ensures forall i :: 0 <= i < |RangeFrom(ks, prefix)| ==> !LexLess(RangeFrom(ks, prefix)[i], prefix)
  {
    if ks != [] {
      if LexLess(ks[0], prefix) {
        if StartsWith(ks[0], prefix) { PrefixContiguous(prefix, ks[0], ks[0]); }
        RangeLosesNothing(ks[1..], prefix);
      } else {
        forall i | 0 <= i < |ks| ensures !LexLess(ks[i], prefix) {
          if i > 0 && LexLess(ks[i], prefix) { LexTransitive(ks[0], ks[i], prefix); }
        }
      }
    }
  }

  /** The range scan finds what filtering the whole map finds. */
  lemma ScanIsFilter(keys: set<string>, prefix: string)
    ensures Scan(keys, prefix) == ChildNames(SortedKeys(keys), prefix)
  {
    var ks := SortedKeys(keys);
    RangeLosesNothing(ks, prefix);
    TakeLosesNothing(RangeFrom(ks, prefix), prefix);
  }

  lemma {:induction false} ChildNamesOf(ks: seq<string>, prefix: string)
    requires Ascending(ks)
    ensures Ascending(ChildNames(ks, prefix))
    ensures forall n :: n in ChildNames(ks, prefix) <==> '/' !in n && prefix + n in ks
  {
    if ks != [] {
      var rest := ChildNames(ks[1..], prefix);
      ChildNamesOf(ks[1..], prefix);
      var head := ks[0];
      assert ks == [head] + ks[1..];
      if StartsWith(head, prefix) && '/' !in head[|prefix|..] {
        var n0 := head[|prefix|..];
        assert prefix + n0 == head;
        assert ChildNames(ks, prefix) == [n0] + rest;
        forall i | 0 <= i < |rest| ensures LexLess(n0, rest[i]) {
          assert rest[i] in rest;
          var j :| 0 <= j < |ks[1..]| && ks[1..][j] == prefix + rest[i];
          assert LexLess(ks[0], ks[j + 1]);
          LexCancelPrefix(prefix, n0, rest[i]);
        }
        forall n ensures n in ChildNames(ks, prefix) <==> '/' !in n && prefix + n in ks {
          if prefix + n == head { assert (prefix + n)[|prefix|..] == n; }
        }
      } else {
        forall n ensures n in ChildNames(ks, prefix) <==> '/' !in n && prefix + n in ks {
          if prefix + n == head { assert (prefix + n)[|prefix|..] == n; }
        }
      }
    }
  }

  /** The listing is the strictly ascending sequence of exactly the direct children. */
  lemma ScanListsChildren(keys: set<string>, prefix: string)
    ensures Ascending(Scan(keys, prefix))
    ensures forall n :: n in Scan(keys, prefix) <==> '/' !in n && prefix + n in keys
  {
    ScanIsFilter(keys, prefix);
    ChildNamesOf(SortedKeys(keys), prefix);
  }
}
