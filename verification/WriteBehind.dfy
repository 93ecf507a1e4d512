/**
 The orchestrator's write-behind buffer. Snapshots are appended to a pending list;
 a flush swaps the list out under the mutex, releases the mutex and then talks to
 the database, so several flushes and the ingest goroutine interleave freely. Only a
 failing BeginTx puts the batch back; any later failure drops it.
 */
module WriteBehind {
  import opened Base
  import opened MapSum

  datatype Entry = Entry(sandbox: string, session: string, path: string, data: seq<byte>)

  /** An entry with its place in the order of ingestion. */
  datatype Row = Row(id: nat, entry: Entry)

  type FlushId = nat

  /** A batch in the hands of a flush, before or after BeginTx succeeded. */
  datatype Flight = Flight(batch: seq<Row>, begun: bool)

  datatype State = State(
    ingested: seq<Row>,
    pending: seq<Row>,
    flights: map<FlushId, Flight>,
    persisted: seq<Row>,
    lost: seq<Row>)

  const Start := State([], [], map[], [], [])

  datatype Event =
    | Ingest(entries: seq<Entry>)  // one response, under the mutex
    | Take(f: FlushId)             // swap the pending list out, under the mutex
    | BeginFails(f: FlushId)       // BeginTx error: put the batch back, under the mutex
    | Begins(f: FlushId)
    | Fails(f: FlushId)            // prepare, insert or commit error: rolled back
    | Commits(f: FlushId)

  function Tagged(first: nat, entries: seq<Entry>): seq<Row> {
    seq(|entries|, i requires 0 <= i < |entries| => Row(first + i, entries[i]))
  }

  predicate InFlight(s: State, f: FlushId, begun: bool) {
    f in s.flights && s.flights[f].begun == begun
  }

  function Step(s: State, e: Event): State {
    match e
    case Ingest(entries) =>
      var rows := Tagged(|s.ingested|, entries);
      s.(ingested := s.ingested + rows, pending := s.pending + rows)
    case Take(f) =>
      if f in s.flights || s.pending == [] then s
      else s.(pending := [], flights := s.flights[f := Flight(s.pending, false)])
    case BeginFails(f) =>
      if !InFlight(s, f, false) then s
      else s.(pending := s.flights[f].batch + s.pending, flights := s.flights - {f})
    case Begins(f) =>
      if !InFlight(s, f, false) then s
      else s.(flights := s.flights[f := s.flights[f].(begun := true)])
    case Fails(f) =>
      if !InFlight(s, f, true) then s
      else s.(lost := s.lost + s.flights[f].batch, flights := s.flights - {f})
    case Commits(f) =>
      if !InFlight(s, f, true) then s
      else s.(persisted := s.persisted + s.flights[f].batch, flights := s.flights - {f})
  }

  function Run(es: seq<Event>): State {
    if es == [] then Start else Step(Run(es[..|es| - 1]), es[|es| - 1])
  }

  // ---- Conservation ------------------------------------------------------------------

  ghost const Batch := (v: Flight) => multiset(v.batch)

  /** Everything in the hands of flushes. */
  ghost function Carried(flights: map<FlushId, Flight>): multiset<Row> {
    Gathered(flights, Batch)
  }

  ghost predicate Balanced(s: State) {
    multiset(s.ingested) == multiset(s.persisted) + multiset(s.pending) + Carried(s.flights) + multiset(s.lost)
  }

  lemma TakeBalances(s: State, f: FlushId)
    requires Balanced(s) && f !in s.flights
    ensures Balanced(s.(pending := [], flights := s.flights[f := Flight(s.pending, false)]))
  {
    GatheredSet(s.flights, f, Flight(s.pending, false), Batch);
    assert s.flights - {f} == s.flights;
  }

  lemma BeginBalances(s: State, f: FlushId)
    requires Balanced(s) && f in s.flights
    ensures Balanced(s.(flights := s.flights[f := s.flights[f].(begun := true)]))
  {
    GatheredRemove(s.flights, f, Batch);
    GatheredSet(s.flights, f, s.flights[f].(begun := true), Batch);
  }

  /** A landing batch goes back to the front of the pending list, to the database, or is dropped. */
  lemma LandingBalances(s: State, e: Event)
    requires Balanced(s) && (e.BeginFails? || e.Fails? || e.Commits?) && e.f in s.flights
    ensures Balanced(Step(s, e))
  {
    GatheredRemove(s.flights, e.f, Batch);
  }

  lemma StepBalances(s: State, e: Event)
    requires Balanced(s)
    ensures Balanced(Step(s, e))
  {
    match e
    case Ingest(entries) =>
    case Take(f) => if f !in s.flights { TakeBalances(s, f); }
    case Begins(f) => if f in s.flights { BeginBalances(s, f); }
    case BeginFails(f) => if f in s.flights { LandingBalances(s, e); }
    case Fails(f) => if f in s.flights { LandingBalances(s, e); }
    case Commits(f) => if f in s.flights { LandingBalances(s, e); }
  }

  /** In every interleaving each ingested row is persisted, pending, in flight or lost, exactly once. */
  lemma {:induction false} Conserved(es: seq<Event>)
    ensures Balanced(Run(es))
  {
    if es != [] {
      Conserved(es[..|es| - 1]);
      StepBalances(Run(es[..|es| - 1]), es[|es| - 1]);
    }
  }

  ghost predicate InIdOrder(rows: seq<Row>) {
    forall i :: 0 <= i < |rows| ==> rows[i].id == i
  }

  lemma TagsContinue(rows: seq<Row>, entries: seq<Entry>)
    requires InIdOrder(rows)
    ensures InIdOrder(rows + Tagged(|rows|, entries))
  {
    var more := Tagged(|rows|, entries);
    forall i | 0 <= i < |rows + more| ensures (rows + more)[i].id == i {
      if i >= |rows| { assert (rows + more)[i] == more[i - |rows|]; }
    }
  }

  lemma {:induction false} IngestedTagged(es: seq<Event>)
    ensures InIdOrder(Run(es).ingested)
  {
    if es != [] {
      var before, e := Run(es[..|es| - 1]), es[|es| - 1];
      IngestedTagged(es[..|es| - 1]);
      if e.Ingest? { TagsContinue(before.ingested, e.entries); }
    }
  }

  lemma TwiceMeansTwo(s: seq<Row>, i: nat, j: nat)
    requires i < j < |s| && s[i] == s[j]
    ensures multiset(s)[s[i]] >= 2
  {
    assert s == s[..j] + [s[j]] + s[j + 1..];
    assert s[i] in s[..j];
  }

  lemma TaggedOnce(s: seq<Row>, r: Row)
    requires InIdOrder(s)
    ensures multiset(s)[r] <= 1
  {
    if r in s {
      var i :| 0 <= i < |s| && s[i] == r;
      assert s == s[..i] + [s[i]] + s[i + 1..];
      assert r !in s[..i] && r !in s[i + 1..];
    }
  }

  /** No row reaches the database twice, and none that did is still pending, in flight or lost. */
  lemma PersistedOnce(es: seq<Event>, i: nat)
    requires i < |Run(es).persisted|
    ensures var s := Run(es);
            && (forall j :: 0 <= j < |s.persisted| && j != i ==> s.persisted[j] != s.persisted[i])
            && s.persisted[i] !in s.pending && s.persisted[i] !in s.lost && s.persisted[i] !in Carried(s.flights)
  {
    var s := Run(es);
    var r := s.persisted[i];
    Conserved(es);
    IngestedTagged(es);
    TaggedOnce(s.ingested, r);
    assert r in multiset(s.persisted);
    assert r in s.pending ==> r in multiset(s.pending);
    assert r in s.lost ==> r in multiset(s.lost);
    forall j | 0 <= j < |s.persisted| && j != i ensures s.persisted[j] != r {
      if s.persisted[j] == r { TwiceMeansTwo(s.persisted, Min(i, j), Max(i, j)); }
    }
  }

  // ---- Loss ---------------------------------------------------------------------------

  lemma {:induction false} BatchesNonEmpty(es: seq<Event>)
    ensures forall f :: f in Run(es).flights ==> Run(es).flights[f].batch != []
  {
    if es != [] { BatchesNonEmpty(es[..|es| - 1]); }
  }

  /** The `k`-th event is a flush failing after BeginTx succeeded. */
  predicate LateFailure(es: seq<Event>, k: nat)
    requires k < |es|
  {
    es[k].Fails? && InFlight(Run(es[..k]), es[k].f, true)
  }

  lemma LostStep(es: seq<Event>)
    requires es != []
    ensures var before := Run(es[..|es| - 1]).lost;
            if LateFailure(es, |es| - 1) then |Run(es).lost| > |before| else Run(es).lost == before
  {
    BatchesNonEmpty(es[..|es| - 1]);
  }

  /** Rows are lost exactly when some flush fails after its BeginTx; no other event drops anything. */
  lemma {:induction false} LostIff(es: seq<Event>)
    ensures Run(es).lost == [] <==> forall k :: 0 <= k < |es| ==> !LateFailure(es, k)
    decreases |es|
  {
    if es != [] {
      var before := es[..|es| - 1];
      LostIff(before);
      LostStep(es);
      forall k | 0 <= k < |before| ensures LateFailure(before, k) <==> LateFailure(es, k) {
        assert before[..k] == es[..k];
      }
      if Run(before).lost != [] {
        var k :| 0 <= k < |before| && LateFailure(before, k);
        assert LateFailure(es, k);
      }
    }
  }

  // ---- Order --------------------------------------------------------------------------

  /** No two flushes hold a batch at the same time, at any point of the run. */
  ghost predicate OneAtATime(es: seq<Event>) {
    forall k :: 0 <= k <= |es| ==> Alone(Run(es[..k]).flights)
  }

  ghost predicate Alone(flights: map<FlushId, Flight>) {
    forall f, g :: f in flights && g in flights ==> f == g
  }

  /** Persisted rows, then the batch in flight, then the pending rows are the ingested rows in order. */
  ghost predicate Ordered(s: State) {
    && (s.flights == map[] ==> s.persisted + s.pending == s.ingested)
    && (forall f :: f in s.flights ==> s.persisted + s.flights[f].batch + s.pending == s.ingested)
  }

  lemma OrderedStep(s: State, e: Event)
    requires Ordered(s) && Alone(s.flights) && Alone(Step(s, e).flights)
    requires !(e.Fails? && InFlight(s, e.f, true))
    ensures Ordered(Step(s, e))
  {
    var t := Step(s, e);
    match e
    case Ingest(entries) =>
      var rows := Tagged(|s.ingested|, entries);
      assert s.persisted + (s.pending + rows) == (s.persisted + s.pending) + rows;
      forall f | f in s.flights
        ensures s.persisted + s.flights[f].batch + (s.pending + rows)
             == s.persisted + s.flights[f].batch + s.pending + rows
      {}
    case Take(f) =>
      if t != s {
        assert f in t.flights;
        assert forall g :: g in s.flights ==> g in t.flights;
        assert s.flights.Keys <= {f} && f !in s.flights;
        assert s.flights == map[];
        assert s.persisted + s.pending + [] == s.persisted + s.pending;
      }
    case BeginFails(f) =>
      if t != s {
        var batch := s.flights[f].batch;
        assert s.persisted + (batch + s.pending) == s.persisted + batch + s.pending;
      }
    case Begins(f) =>
    case Commits(f) =>
    case Fails(f) =>
  }

  /** With flushes that do not overlap and no failure after BeginTx, ingestion order is kept. */
  lemma {:induction false} OrderKept(es: seq<Event>)
    requires OneAtATime(es) && forall k :: 0 <= k < |es| ==> !LateFailure(es, k)
    ensures Ordered(Run(es))
    decreases |es|
  {
    if es != [] {
      var before := es[..|es| - 1];
      forall k | 0 <= k <= |before| ensures Alone(Run(before[..k]).flights) { assert before[..k] == es[..k]; }
      forall k | 0 <= k < |before| ensures !LateFailure(before, k) {
        assert before[..k] == es[..k];
        assert !LateFailure(es, k);
      }
      OrderKept(before);
      assert !LateFailure(es, |es| - 1);
      assert es[..|es|] == es && before[..|before|] == before;
      OrderedStep(Run(before), es[|es| - 1]);
    }
  }

  // ---- Exactly when order is kept --------------------------------------------------------

  ghost predicate Ascending(rows: seq<Row>) {
    forall i, j :: 0 <= i < j < |rows| ==> rows[i].id < rows[j].id
  }

  ghost predicate Before(rows: seq<Row>, others: multiset<Row>) {
    forall i, r :: 0 <= i < |rows| && r in others ==> rows[i].id < r.id
  }

  /** Rows ingested and not persisted that another flush carries, that wait, or that were lost. */
  ghost function Elsewhere(s: State, f: FlushId): multiset<Row> {
    multiset(s.pending) + Carried(s.flights - {f}) + multiset(s.lost)
  }

  /** The flush's batch is in order of ingestion and older than everything else that is not persisted. */
  ghost predicate InTurn(s: State, f: FlushId)
    requires f in s.flights
  {
    Ascending(s.flights[f].batch) && Before(s.flights[f].batch, Elsewhere(s, f))
  }

  lemma TailOnly(ingested: seq<Row>, p: nat, r: Row)
    requires InIdOrder(ingested) && p <= |ingested|
    ensures r in multiset(ingested[p..]) <==> p <= r.id < |ingested| && r == ingested[r.id]
  {
    if r in ingested[p..] {
      var i :| 0 <= i < |ingested[p..]| && ingested[p..][i] == r;
      assert ingested[p + i] == r;
    }
    if p <= r.id < |ingested| && r == ingested[r.id] { assert ingested[p..][r.id - p] == r; }
  }

  /** The `i`-th row of the batch is the `i`-th ingested row from `p` on. */
  ghost predicate Follows(ingested: seq<Row>, p: nat, batch: seq<Row>, i: nat)
    requires i < |batch|
  {
    p + i < |ingested| && batch[i] == ingested[p + i]
  }

  /** A batch that is older than the rest of the tail is the front of the tail. */
  lemma {:induction false} OldestIsFront(ingested: seq<Row>, p: nat, batch: seq<Row>, rest: multiset<Row>, i: nat)
    requires InIdOrder(ingested) && p <= |ingested| && multiset(ingested[p..]) == multiset(batch) + rest
    requires Ascending(batch) && Before(batch, rest) && i < |batch|
    ensures Follows(ingested, p, batch, i)
    decreases i
  {
    if i > 0 { OldestIsFront(ingested, p, batch, rest, i - 1); }
    assert batch[i] in multiset(batch);
    TailOnly(ingested, p, batch[i]);
    if batch[i].id != p + i {
      var r := ingested[p + i];
      TailOnly(ingested, p, r);
      assert r !in rest;
      assert r in batch;
      var j :| 0 <= j < |batch| && batch[j] == r;
      if j < i { OldestIsFront(ingested, p, batch, rest, j); }
      assert false;
    }
  }

  /** The front of the tail is in order and older than the rest of it. */
  lemma FrontIsOldest(ingested: seq<Row>, p: nat, batch: seq<Row>, rest: multiset<Row>)
    requires InIdOrder(ingested) && p <= |ingested| && multiset(ingested[p..]) == multiset(batch) + rest
    requires ingested[..p] + batch <= ingested
    ensures Ascending(batch) && Before(batch, rest)
  {
    var q := p + |batch|;
    assert forall i :: 0 <= i < |batch| ==> batch[i] == (ingested[..p] + batch)[p + i] == ingested[p + i];
    assert ingested[p..] == batch + ingested[q..];
    Cancel(multiset(batch), rest, multiset(ingested[q..]));
    forall i, r | 0 <= i < |batch| && r in rest ensures batch[i].id < r.id { TailOnly(ingested, q, r); }
  }

  lemma FrontIffOldest(ingested: seq<Row>, p: nat, batch: seq<Row>, rest: multiset<Row>)
    requires InIdOrder(ingested) && p <= |ingested| && multiset(ingested[p..]) == multiset(batch) + rest
    ensures ingested[..p] + batch <= ingested <==> Ascending(batch) && Before(batch, rest)
  {
    if ingested[..p] + batch <= ingested { FrontIsOldest(ingested, p, batch, rest); }
    if Ascending(batch) && Before(batch, rest) {
      forall i | 0 <= i < |batch| ensures Follows(ingested, p, batch, i) {
        OldestIsFront(ingested, p, batch, rest, i);
      }
      FrontPiece(ingested, p, batch);
    }
  }

  lemma FrontPiece(ingested: seq<Row>, p: nat, batch: seq<Row>)
    requires p <= |ingested| && forall i :: 0 <= i < |batch| ==> Follows(ingested, p, batch, i)
    ensures ingested[..p] + batch <= ingested
  {
    if batch != [] { assert Follows(ingested, p, batch, |batch| - 1); }
    var front := ingested[..p] + batch;
    forall k | 0 <= k < |front| ensures front[k] == ingested[k] {
      if k >= p { assert Follows(ingested, p, batch, k - p); }
    }
  }

  /** What is not persisted yet is the flush's batch and what is elsewhere. */
  lemma TailSplits(s: State, f: FlushId, p: nat)
    requires Balanced(s) && f in s.flights && p <= |s.ingested| && s.persisted == s.ingested[..p]
    ensures multiset(s.ingested[p..]) == multiset(s.flights[f].batch) + Elsewhere(s, f)
  {
    GatheredRemove(s.flights, f, Batch);
    assert s.ingested == s.ingested[..p] + s.ingested[p..];
    Cancel(multiset(s.persisted), multiset(s.ingested[p..]), multiset(s.flights[f].batch) + Elsewhere(s, f));
  }

  /** A commit keeps the persisted rows a front piece of the ingested ones exactly when its flush is in turn. */
  lemma CommitKeepsOrderIff(s: State, f: FlushId)
    requires Balanced(s) && InIdOrder(s.ingested) && s.persisted <= s.ingested && InFlight(s, f, true)
    ensures Step(s, Commits(f)).persisted <= s.ingested <==> InTurn(s, f)
  {
    var p := |s.persisted|;
    assert s.persisted == s.ingested[..p];
    TailSplits(s, f, p);
    FrontIffOldest(s.ingested, p, s.flights[f].batch, Elsewhere(s, f));
  }

  /** The `k`-th event is a commit out of turn. */
  ghost predicate CommitsOutOfTurn(es: seq<Event>, k: nat)
    requires k < |es|
  {
    es[k].Commits? && InFlight(Run(es[..k]), es[k].f, true) && !InTurn(Run(es[..k]), es[k].f)
  }

  lemma NoMoreThanIngested(s: State)
    requires Balanced(s)
    ensures |s.persisted| <= |s.ingested|
  {
    assert |multiset(s.ingested)| == |s.ingested| && |multiset(s.persisted)| == |s.persisted|;
  }

  /** Order that is lost never comes back: both lists only grow at the end. */
  lemma OrderStaysLost(s: State, e: Event)
    requires Balanced(s) && Step(s, e).persisted <= Step(s, e).ingested
    ensures s.persisted <= s.ingested
  {
    var after := Step(s, e);
    NoMoreThanIngested(s);
    assert s.ingested <= after.ingested && s.persisted <= after.persisted;
    forall i | 0 <= i < |s.persisted| ensures s.persisted[i] == s.ingested[i] {
      assert s.persisted[i] == after.persisted[i] == after.ingested[i];
    }
  }

  /** Only a commit can lose the order. */
  lemma QuietKeepsOrder(s: State, e: Event)
    requires s.persisted <= s.ingested && !(e.Commits? && InFlight(s, e.f, true))
    ensures Step(s, e).persisted <= Step(s, e).ingested
  {
  }

  lemma OrderStep(es: seq<Event>)
    requires es != []
    ensures Run(es).persisted <= Run(es).ingested <==>
      && Run(es[..|es| - 1]).persisted <= Run(es[..|es| - 1]).ingested
      && !CommitsOutOfTurn(es, |es| - 1)
  {
    var s, e := Run(es[..|es| - 1]), es[|es| - 1];
    Conserved(es[..|es| - 1]);
    IngestedTagged(es[..|es| - 1]);
    if Step(s, e).persisted <= Step(s, e).ingested { OrderStaysLost(s, e); }
    if s.persisted <= s.ingested {
      if e.Commits? && InFlight(s, e.f, true) { CommitKeepsOrderIff(s, e.f); } else { QuietKeepsOrder(s, e); }
    }
  }

  /** In every interleaving the table is a front piece of the ingested rows exactly when every commit is in turn. */
  lemma {:induction false} OrderKeptIff(es: seq<Event>)
    ensures Run(es).persisted <= Run(es).ingested <==> forall k :: 0 <= k < |es| ==> !CommitsOutOfTurn(es, k)
    decreases |es|
  {
    if es != [] {
      var before := es[..|es| - 1];
      OrderKeptIff(before);
      OrderStep(es);
      forall k | 0 <= k < |before| ensures CommitsOutOfTurn(before, k) <==> CommitsOutOfTurn(es, k) {
        assert before[..k] == es[..k];
      }
    }
  }

  // ---- What the code's comment promises and the code does not do -------------------------

  lemma Run4(a: Event, b: Event, c: Event, d: Event)
    ensures Run([a, b, c, d]) == Step(Step(Step(Step(Start, a), b), c), d)
  {
    assert [a, b, c, d][..3] == [a, b, c] && [a, b, c][..2] == [a, b] && [a, b][..1] == [a] && [a][..0] == [];
    assert Run([a]) == Step(Start, a);
    assert Run([a, b]) == Step(Run([a]), b);
    assert Run([a, b, c]) == Step(Run([a, b]), c);
  }

  /** Two flushes can be under way at once, and then a later batch can be persisted first. */
  lemma OverlapReorders(a: Entry, b: Entry)
    ensures var s := Run([Ingest([a]), Take(1), Ingest([b]), Take(2)]);
            && 1 in s.flights && 2 in s.flights
            && Step(Step(Step(Step(s, Begins(2)), Commits(2)), Begins(1)), Commits(1)).persisted
               == [Row(1, b), Row(0, a)]
  {
    Run4(Ingest([a]), Take(1), Ingest([b]), Take(2));
    var s1 := Step(Start, Ingest([a]));
    assert s1.pending == [Row(0, a)] && |s1.ingested| == 1;
    var s3 := Step(Step(s1, Take(1)), Ingest([b]));
    assert s3.pending == [Row(1, b)];
  }

  /**
   Two overlapping flushes whose BeginTx fails put their batches back in the wrong
   order, and a later flush with nothing beside it persists them so.
   */
  lemma RestoresReorder(a: Entry, b: Entry)
    ensures var s := Step(Step(Run([Ingest([a]), Take(1), Ingest([b]), Take(2)]), BeginFails(1)), BeginFails(2));
            && s.pending == [Row(1, b), Row(0, a)] && s.flights == map[] && s.lost == [] && s.persisted == []
            && Step(Step(Step(s, Take(3)), Begins(3)), Commits(3)).persisted == [Row(1, b), Row(0, a)]
  {
    Run4(Ingest([a]), Take(1), Ingest([b]), Take(2));
    var s1 := Step(Start, Ingest([a]));
    assert s1.pending == [Row(0, a)] && |s1.ingested| == 1;
    var s3 := Step(Step(s1, Take(1)), Ingest([b]));
    assert s3.pending == [Row(1, b)];
    var s4 := Step(s3, Take(2));
    assert s4.flights - {1} - {2} == map[];
  }

  /** A flush that fails after BeginTx drops its rows for good. */
  lemma LateFailureDrops(a: Entry)
    ensures var s := Run([Ingest([a]), Take(1), Begins(1), Fails(1)]);
            s.lost == [Row(0, a)] && s.pending == [] && s.persisted == [] && s.flights == map[]
  {
    Run4(Ingest([a]), Take(1), Begins(1), Fails(1));
    assert Step(Start, Ingest([a])).pending == [Row(0, a)];
  }

  // ---- The code ------------------------------------------------------------------------

  /** How the database behaves during one flush. */
  datatype Database = BeginError | PrepareError | InsertError(at: nat) | CommitError | Healthy

  /** One flush as the interleaving model sees it when nothing runs beside it. */
  function FlushSteps(s: State, db: Database): State {
    if s.pending == [] then s
    else if db.BeginError? then Step(Step(s, Take(0)), BeginFails(0))
    else
      var begun := Step(Step(s, Take(0)), Begins(0));
      if db.Healthy? || (db.InsertError? && db.at >= |s.pending|) then Step(begun, Commits(0))
      else Step(begun, Fails(0))
  }

  class WriteBehindSync {
    var pending: seq<Row>
    var table: seq<Row>
    ghost var ingested: seq<Row>
    ghost var lost: seq<Row>
    var nextId: nat

    ghost predicate Valid()
      reads this
    {
      nextId == |ingested|
    }

    ghost function View(): State
      reads this
    {
      State(ingested, pending, map[], table, lost)
    }

    constructor ()
      ensures Valid() && View() == Start
    {
      pending, table, ingested, lost, nextId := [], [], [], [], 0;
    }

    /** One response; the entries come in the order the snapshot map is iterated. */
    method IngestResponse(entries: seq<Entry>)
      requires Valid()
      modifies this
      ensures Valid() && View() == Step(old(View()), Ingest(entries))
      ensures |pending| == |old(pending)| + |entries| && pending[..|old(pending)|] == old(pending)
      ensures forall i :: 0 <= i < |entries| ==> pending[|old(pending)| + i] == Row(old(nextId) + i, entries[i])
    {
      ghost var first := nextId;
      for i := 0 to |entries|
        invariant nextId == first + i
        invariant pending == old(pending) + Tagged(first, entries[..i])
        invariant table == old(table) && ingested == old(ingested) && lost == old(lost)
      {
        pending := pending + [Row(nextId, entries[i])];
        nextId := nextId + 1;
        assert Tagged(first, entries[..i + 1]) == Tagged(first, entries[..i]) + [Row(first + i, entries[i])];
      }
      assert entries[..|entries|] == entries;
      ingested := ingested + Tagged(first, entries);
    }

    /** Swap, BeginTx, prepare, insert row by row, commit; only a BeginTx error restores the batch. */
    method Flush(db: Database) returns (ok: bool)
      requires Valid()
      modifies this
      ensures Valid() && View() == FlushSteps(old(View()), db)
      ensures ok <==> old(pending) == [] || db.Healthy? || (db.InsertError? && db.at >= |old(pending)|)
      ensures ok ==> table == old(table) + old(pending) && pending == [] && lost == old(lost)
      ensures !ok ==> table == old(table)
      ensures !ok && db.BeginError? ==> pending == old(pending) && lost == old(lost)
      ensures !ok && !db.BeginError? ==> pending == [] && lost == old(lost) + old(pending)
    {
      if |pending| == 0 {
        return true;
      }
      var batch := pending;
      pending := [];
      if db.BeginError? {
        pending := batch + pending;
        return false;
      }
      if db.PrepareError? {
        lost := lost + batch;
        return false;
      }
      var tx := [];
      for i := 0 to |batch|
        invariant tx == batch[..i] && (db.InsertError? ==> db.at >= i)
        invariant pending == [] && table == old(table) && lost == old(lost)
        invariant ingested == old(ingested) && nextId == old(nextId)
      {
        if db.InsertError? && db.at == i {
          lost := lost + batch;
          return false;
        }
        tx := tx + [batch[i]];
      }
      if db.CommitError? {
        lost := lost + batch;
        return false;
      }
      table := table + tx;
      ok := true;
    }
  }
}
