/**
 Guest path handling: `canonicalise` and `split_path` of the worker's VFS.

 The canonicaliser walks the '/'-separated components with a stack. Three
 independent accounts of what it computes are given and connected: the stack
 walk itself (`Resolve`), a right-to-left cancellation (`Kept`, `Ups`), and the
 prefix-balance condition that decides whether it succeeds.
 */
module Paths {
  import opened Base

  /** A canonical path, as the list of names below the root. */
  type Path = seq<string>

  // ---- str::split('/') and join("/") -------------------------------------

  function Split(s: string): (parts: seq<string>)
    ensures |parts| >= 1
  {
    if s == "" then [""]
    else
      var rest := Split(s[1..]);
      if s[0] == '/' then [""] + rest else [[s[0]] + rest[0]] + rest[1..]
  }

  function Join(parts: seq<string>): string {
    if parts == [] then ""
    else if |parts| == 1 then parts[0]
    else parts[0] + "/" + Join(parts[1..])
  }

  ghost predicate SlashFree(parts: seq<string>) {
    forall i :: 0 <= i < |parts| ==> '/' !in parts[i]
  }

  /** Splitting cuts at every separator and loses nothing. */
  lemma {:induction false} JoinSplit(s: string)
    ensures Join(Split(s)) == s && SlashFree(Split(s))
  {
    if s != "" {
      JoinSplit(s[1..]);
      var rest := Split(s[1..]);
      var parts := Split(s);
      assert s == [s[0]] + s[1..];
      if s[0] == '/' {
        assert parts[1..] == rest;
      } else {
        assert parts[1..] == rest[1..];
        assert SlashFree(rest[1..]);
      }
    }
  }

  lemma {:induction false} SplitConcat(a: string, b: string)
    ensures Split(a + "/" + b) == Split(a) + Split(b)
  {
    var s := a + "/" + b;
    if a == "" {
      assert s == "/" + b;
      assert s[1..] == b;
    } else {
      assert s[1..] == a[1..] + "/" + b;
      SplitConcat(a[1..], b);
    }
  }

  lemma {:induction false} SplitName(n: string)
    requires '/' !in n
    ensures Split(n) == [n]
  {
    if n != "" {
      SplitName(n[1..]);
      assert n == [n[0]] + n[1..];
    }
  }

  lemma {:induction false} SplitJoin(parts: seq<string>)
    requires parts != [] && SlashFree(parts)
    ensures Split(Join(parts)) == parts
  {
    SplitName(parts[0]);
    if |parts| > 1 {
      SplitJoin(parts[1..]);
      SplitConcat(parts[0], Join(parts[1..]));
      assert parts == [parts[0]] + parts[1..];
    }
  }

  lemma {:induction false} JoinSnoc(p: seq<string>, n: string)
    requires p != []
    ensures Join(p + [n]) == Join(p) + "/" + n
  {
    if |p| == 1 {
      assert (p + [n])[1..] == [n];
    } else {
      assert (p + [n])[1..] == p[1..] + [n];
      JoinSnoc(p[1..], n);
      calc {
        Join(p + [n]);
        p[0] + "/" + (Join(p[1..]) + "/" + n);
        (p[0] + "/" + Join(p[1..])) + "/" + n;
      }
    }
  }

  // ---- Canonical paths ---------------------------------------------------

  predicate IsName(c: string) {
    c != "" && c != "." && c != ".."
  }

  /** No empty, "." or ".." component, and no separator inside one. */
  ghost predicate Clean(p: Path) {
    SlashFree(p) && forall i :: 0 <= i < |p| ==> IsName(p[i])
  }

  function Render(p: Path): (s: string)
    ensures s != "" && s[0] == '/'
  {
    "/" + Join(p)
  }

  /** The names of a canonical path string. */
  function Components(s: string): Path {
    if |s| <= 1 then [] else Split(s[1..])
  }

  ghost predicate Canonical(s: string) {
    s != "" && s[0] == '/' && Clean(Components(s))
  }

  lemma RenderCanonical(p: Path)
    requires Clean(p)
    ensures Canonical(Render(p)) && Components(Render(p)) == p
  {
    if p != [] {
      assert Render(p)[1..] == Join(p);
      assert IsName(p[0]);
      SplitJoin(p);
    }
  }

  lemma CanonicalRender(s: string)
    requires Canonical(s)
    ensures Render(Components(s)) == s
  {
    if s != "/" {
      JoinSplit(s[1..]);
      assert s == "/" + s[1..];
    }
  }

  // ---- The component walk ------------------------------------------------

  function Push(stack: Path, c: string): Option<Path> {
    if c == "" || c == "." then Some(stack)
    else if c == ".." then
      if stack == [] then None else Some(stack[..|stack| - 1])
    else Some(stack + [c])
  }

  function Resolve(stack: Path, comps: seq<string>): Option<Path>
    decreases |comps|
  {
    if comps == [] then Some(stack)
    else
      var next := Push(stack, comps[0]);
      if next.None? then None else Resolve(next.value, comps[1..])
  }

  datatype PathError = Traversal(raw: string)

  /** What the canonicaliser promises, without its loop or its "/" cases. */
  function Canonicalised(raw: string): Result<string, PathError> {
    var r := Resolve([], Split(raw));
    if r.Some? then Ok(Render(r.value)) else Err(Traversal(raw))
  }

  method Canonicalise(raw: string) returns (r: Result<string, PathError>)
    ensures r == Canonicalised(raw)
  {
    var parts: seq<string> := [];
    var path := if |raw| > 0 && raw[0] == '/' then raw else "/" + raw;
    var comps := Split(path);
    assert Resolve([], comps) == Resolve([], Split(raw)) by { LeadingSlash(raw); }
    var i := 0;
    while i < |comps|
      invariant 0 <= i <= |comps|
      invariant Resolve(parts, comps[i..]) == Resolve([], comps)
    {
      var component := comps[i];
      assert comps[i..][1..] == comps[i + 1..];
      if component == "" || component == "." {
      } else if component == ".." {
        if parts == [] {
          return Err(Traversal(raw));
        }
        parts := parts[..|parts| - 1];
      } else {
        parts := parts + [component];
      }
      i := i + 1;
    }
    assert comps[i..] == [] && Render([]) == "/";
    assert Resolve([], Split(raw)) == Some(parts);
    r := Ok(if parts == [] then "/" else "/" + Join(parts));
  }

  lemma LeadingSlash(raw: string)
    ensures Resolve([], Split("/" + raw)) == Resolve([], Split(raw))
  {
    assert ("/" + raw)[1..] == raw;
    var parts := Split("/" + raw);
    assert parts == [""] + Split(raw);
    assert parts[1..] == Split(raw);
  }

  lemma {:induction false} ResolveConcat(stack: Path, a: seq<string>, b: seq<string>)
    ensures Resolve(stack, a + b)
         == (var r := Resolve(stack, a); if r.Some? then Resolve(r.value, b) else None)
    decreases |a|
  {
    if a == [] {
      assert a + b == b;
    } else {
      assert (a + b)[0] == a[0] && (a + b)[1..] == a[1..] + b;
      var next := Push(stack, a[0]);
      if next.Some? {
        ResolveConcat(next.value, a[1..], b);
      }
    }
  }

  lemma {:induction false} ResolveClean(stack: Path, p: Path)
    requires Clean(p)
    ensures Resolve(stack, p) == Some(stack + p)
    decreases |p|
  {
    if p == [] {
      assert stack + p == stack;
    } else {
      assert IsName(p[0]);
      assert forall i :: 0 <= i < |p[1..]| ==> IsName(p[1..][i]) by {
        forall i | 0 <= i < |p[1..]| ensures IsName(p[1..][i]) { assert p[1..][i] == p[i + 1]; }
      }
      ResolveClean(stack + [p[0]], p[1..]);
      assert stack + [p[0]] + p[1..] == stack + p;
    }
  }

  lemma {:induction false} ResolveKeepsClean(stack: Path, comps: seq<string>)
    requires Clean(stack) && SlashFree(comps)
    ensures var r := Resolve(stack, comps); r.Some? ==> Clean(r.value)
    decreases |comps|
  {
    if comps != [] {
      var next := Push(stack, comps[0]);
      if next.Some? {
        assert Clean(next.value);
        ResolveKeepsClean(next.value, comps[1..]);
      }
    }
  }

  /** A successful result is canonical: no empty, "." or ".." component. */
  lemma CanonicalisedIsCanonical(raw: string)
    ensures var r := Canonicalised(raw);
            r.Ok? ==> Canonical(r.value) && Resolve([], Split(raw)) == Some(Components(r.value))
  {
    JoinSplit(raw);
    ResolveKeepsClean([], Split(raw));
    var r := Resolve([], Split(raw));
    if r.Some? {
      RenderCanonical(r.value);
    }
  }

  /** Exactly the canonical paths are left unchanged. */
  lemma CanonicaliseFixpoint(s: string)
    ensures Canonicalised(s) == Ok(s) <==> Canonical(s)
  {
    CanonicalisedIsCanonical(s);
    if Canonical(s) {
      var p := Components(s);
      CanonicalRender(s);
      if p == [] {
        assert s == "/";
        assert Split("/") == ["", ""];
        assert Resolve([], ["", ""]) == Resolve([], [""]) by { assert ["", ""][1..] == [""]; }
      } else {
        LeadingSlash(s[1..]);
        assert s == "/" + s[1..];
        ResolveClean([], p);
        assert [] + p == p;
      }
    }
  }

  lemma CanonicaliseIdempotent(raw: string)
    ensures var r := Canonicalised(raw); r.Ok? ==> Canonicalised(r.value) == r
  {
    CanonicalisedIsCanonical(raw);
    var r := Canonicalised(raw);
    if r.Ok? {
      CanonicaliseFixpoint(r.value);
    }
  }

  /** Canonicalising a/b and canonicalising canon(a)/b have the same outcome. */
  lemma CanonicaliseCompose(a: string, b: string)
    ensures var ra := Canonicalised(a);
            var whole := Canonicalised(a + "/" + b);
            if ra.Err? then whole.Err?
            else var part := Canonicalised(ra.value + "/" + b);
                 whole.Ok? == part.Ok? && (whole.Ok? ==> whole == part)
  {
    SplitConcat(a, b);
    ResolveConcat([], Split(a), Split(b));
    var ra := Canonicalised(a);
    if ra.Ok? {
      SplitConcat(ra.value, b);
      ResolveConcat([], Split(ra.value), Split(b));
      CanonicaliseIdempotent(a);
      CanonicalisedIsCanonical(a);
      CanonicalisedIsCanonical(ra.value);
    }
  }

  // ---- When it succeeds: the balance of every prefix ----------------------

  /** Names minus ".." components. */
  function Balance(comps: seq<string>): int {
    if comps == [] then 0
    else Weight(comps[0]) + Balance(comps[1..])
  }

  function Weight(c: string): int {
    if c == ".." then -1 else if IsName(c) then 1 else 0
  }

  ghost predicate NeverEscapes(depth: nat, comps: seq<string>) {
    forall i :: 0 <= i <= |comps| ==> depth + Balance(comps[..i]) >= 0
  }

  lemma {:induction false} ResolveIffBalanced(stack: Path, comps: seq<string>)
    ensures Resolve(stack, comps).Some? <==> NeverEscapes(|stack|, comps)
    ensures Resolve(stack, comps).Some? ==> |Resolve(stack, comps).value| == |stack| + Balance(comps)
    decreases |comps|
  {
    if comps == [] {
      assert forall i :: 0 <= i <= |comps| ==> comps[..i] == [];
    } else {
      forall i | 1 <= i <= |comps|
        ensures Balance(comps[..i]) == Weight(comps[0]) + Balance(comps[1..][..i - 1])
      {
        assert comps[..i][1..] == comps[1..][..i - 1];
      }
      var next := Push(stack, comps[0]);
      if next.None? {
        assert comps[1..][..0] == [];
        assert |stack| + Balance(comps[..1]) < 0;
      } else {
        ResolveIffBalanced(next.value, comps[1..]);
        assert |next.value| == |stack| + Weight(comps[0]);
        if NeverEscapes(|stack|, comps) {
          forall j | 0 <= j <= |comps[1..]| ensures |next.value| + Balance(comps[1..][..j]) >= 0 {
            assert |stack| + Balance(comps[..j + 1]) >= 0;
          }
        }
        if NeverEscapes(|next.value|, comps[1..]) {
          forall i | 0 <= i <= |comps| ensures |stack| + Balance(comps[..i]) >= 0 {
            if i > 0 { assert |next.value| + Balance(comps[1..][..i - 1]) >= 0; }
          }
        }
      }
    }
  }

  /** Accepted exactly when no prefix of the components has more ".." than names. */
  lemma CanonicaliseAcceptsIff(raw: string)
    ensures Canonicalised(raw).Ok? <==> NeverEscapes(0, Split(raw))
  {
    ResolveIffBalanced([], Split(raw));
  }

  // ---- What it returns: right-to-left cancellation -------------------------

  /** ".." components left over after cancelling names from the right. */
  function Ups(comps: seq<string>): nat {
    if comps == [] then 0
    else
      var u := Ups(comps[1..]);
      if comps[0] == ".." then u + 1
      else if IsName(comps[0]) && u > 0 then u - 1
      else u
  }

  /** The names no later ".." cancels, in order. */
  function Kept(comps: seq<string>): Path {
    if comps == [] then []
    else if IsName(comps[0]) && Ups(comps[1..]) == 0 then [comps[0]] + Kept(comps[1..])
    else Kept(comps[1..])
  }

  lemma {:induction false} ResolveIsCancellation(stack: Path, comps: seq<string>)
    ensures Resolve(stack, comps)
         == if Ups(comps) > |stack| then None
            else Some(stack[..|stack| - Ups(comps)] + Kept(comps))
    decreases |comps|
  {
    if comps == [] {
      assert stack[..|stack|] + [] == stack;
    } else {
      var next := Push(stack, comps[0]);
      if next.Some? {
        var st, u := next.value, Ups(comps[1..]);
        ResolveIsCancellation(st, comps[1..]);
        if IsName(comps[0]) {
          if u == 0 {
            assert st[..|st|] + Kept(comps[1..]) == stack[..|stack|] + Kept(comps);
          } else if u <= |st| {
            assert st[..|st| - u] == stack[..|stack| - (u - 1)];
          }
        } else if comps[0] == ".." && u <= |st| {
          assert st[..|st| - u] == stack[..|stack| - (u + 1)];
        }
      }
    }
  }

  /** The names of the result are those no later ".." takes back. */
  lemma CanonicaliseKeepsUncancelled(raw: string)
    ensures Canonicalised(raw)
         == if Ups(Split(raw)) == 0 then Ok(Render(Kept(Split(raw)))) else Err(Traversal(raw))
  {
    ResolveIsCancellation([], Split(raw));
    assert [] + Kept(Split(raw)) == Kept(Split(raw));
  }

  // ---- split_path ---------------------------------------------------------

  function RFind(s: string, c: char): (r: Option<nat>)
    ensures r.Some? ==> r.value < |s| && s[r.value] == c
  {
    if s == "" then None
    else if s[|s| - 1] == c then Some(|s| - 1)
    else RFind(s[..|s| - 1], c)
  }

  function TrimStart(s: string, c: char): string {
    if s != "" && s[0] == c then TrimStart(s[1..], c) else s
  }

  function SplitPath(path: string): (string, string) {
    match RFind(path, '/')
    case None => ("/", TrimStart(path, '/'))
    case Some(idx) =>
      if idx == 0 then ("/", TrimStart(path, '/')) else (path[..idx], path[idx + 1..])
  }

  lemma {:induction false} RFindLast(a: string, n: string)
    requires '/' !in n
    ensures RFind(a + "/" + n, '/') == Some(|a|)
    decreases |n|
  {
    var s := a + "/" + n;
    if n != "" {
      assert s[|s| - 1] == n[|n| - 1];
      assert s[..|s| - 1] == a + "/" + n[..|n| - 1];
      RFindLast(a, n[..|n| - 1]);
    }
  }

  lemma RenderSnoc(p: Path, n: string)
    ensures Render(p + [n]) == (if p == [] then "" else Render(p)) + "/" + n
  {
    if p == [] {
      assert [] + [n] == [n];
    } else {
      JoinSnoc(p, n);
    }
  }

  /** On a canonical path the string split is "all but the last name" and "the last name". */
  lemma SplitPathIsParent(p: Path)
    requires Clean(p) && p != []
    ensures SplitPath(Render(p)) == (Render(p[..|p| - 1]), p[|p| - 1])
  {
    var q, n := p[..|p| - 1], p[|p| - 1];
    assert p == q + [n];
    RenderSnoc(q, n);
    if q == [] {
      RFindLast("", n);
      assert "" + "/" + n == "/" + n;
      assert ("/" + n)[1..] == n;
      assert TrimStart(n, '/') == n;
      assert Render(p) == "/" + n && Render(q) == "/";
      assert TrimStart("/" + n, '/') == TrimStart(n, '/');
    } else {
      RFindLast(Render(q), n);
      var s := Render(q) + "/" + n;
      assert s[..|Render(q)|] == Render(q) && s[|Render(q)| + 1..] == n;
    }
  }
}
