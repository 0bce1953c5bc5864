/**
 * Independence of a query builder and its clone over whole runs, and what `Clone` copies;
 * then the bounded fetches `First`, `Only`, `OnlyID` and `Exist`.
 */
module QueryBuilderTheorems {
  import opened Prelude
  import opened QueryBuilder

  // ------------------------------------------------------------------ clone and original

  /** A builder call made on the clone or on the original. */
  datatype Step = Step(onClone: bool, op: Op)

  /** The calls of a script that one of the two builders sees, in order. */
  function CallsOn(script: seq<Step>, clone: bool): seq<Op> {
    if script == [] then []
    else
      var last := script[|script| - 1];
      CallsOn(script[..|script| - 1], clone) + (if last.onClone == clone then [last.op] else [])
  }

  lemma CallsSnoc(m: Meaning, script: seq<Step>, i: nat, clone: bool)
    requires i < |script|
    ensures ApplyAll(m, CallsOn(script[..i + 1], clone)) ==
            if script[i].onClone == clone then Apply(ApplyAll(m, CallsOn(script[..i], clone)), script[i].op)
            else ApplyAll(m, CallsOn(script[..i], clone))
  {
    assert script[..i + 1][..i] == script[..i];
    var before := CallsOn(script[..i], clone);
    if script[i].onClone == clone {
      assert (before + [script[i].op])[..|before|] == before;
    } else {
      assert before + [] == before;
    }
  }

  // ------------------------------------------------------------------ what a list of calls does

  /** All arguments of the Where calls, in call order. */
  function Wheres(ops: seq<Op>): seq<Token> {
    if ops == [] then [] else Wheres(ops[..|ops| - 1]) + (if ops[|ops| - 1].Where? then ops[|ops| - 1].ps else [])
  }

  function Orders(ops: seq<Op>): seq<Token> {
    if ops == [] then [] else Orders(ops[..|ops| - 1]) + (if ops[|ops| - 1].Order? then ops[|ops| - 1].os else [])
  }

  function Selects(ops: seq<Op>): seq<Token> {
    if ops == [] then [] else Selects(ops[..|ops| - 1]) + (if ops[|ops| - 1].Select? then ops[|ops| - 1].cols else [])
  }

  function Locks(ops: seq<Op>): seq<Token> {
    if ops == [] then [] else Locks(ops[..|ops| - 1]) + (if ops[|ops| - 1].Lock? then [ops[|ops| - 1].modifier] else [])
  }

  /** The argument of the last Limit call, if any. */
  function LastLimit(ops: seq<Op>): Option<int> {
    if ops == [] then None else if ops[|ops| - 1].Limit? then Some(ops[|ops| - 1].n) else LastLimit(ops[..|ops| - 1])
  }

  function LastOffset(ops: seq<Op>): Option<int> {
    if ops == [] then None else if ops[|ops| - 1].Offset? then Some(ops[|ops| - 1].n) else LastOffset(ops[..|ops| - 1])
  }

  /** The last value that Unique, or a lock on Postgres, gave to DISTINCT. */
  function LastUnique(ops: seq<Op>): Option<bool> {
    if ops == [] then None
    else match ops[|ops| - 1]
      case Unique(b) => Some(b)
      case Lock(_, true) => Some(false)
      case _ => LastUnique(ops[..|ops| - 1])
  }

  /** The last With call on edge e, if any. */
  function LastWith(ops: seq<Op>, e: nat): Option<Op> {
    if ops == [] then None
    else if ops[|ops| - 1].With? && ops[|ops| - 1].edge == e then Some(ops[|ops| - 1])
    else LastWith(ops[..|ops| - 1], e)
  }

  function Latest<T>(later: Option<T>, start: Option<T>): Option<T> {
    if later.Some? then later else start
  }

  /**
   * `r` is what the calls `ops` make of `m`: lists grow by the arguments in call order, single
   * values are the last ones set, and an edge is a new builder after the calls of the options
   * of the last With on it.
   */
  ghost predicate Results(m: Meaning, ops: seq<Op>, r: Meaning)
    decreases r, 1
  {
    && ListResults(m, ops, r) && ValueResults(m, ops, r) && |r.edges| == |m.edges|
    && forall e :: 0 <= e < |r.edges| ==> EdgeResults(m, LastWith(ops, e), e, r)
  }

  ghost predicate ListResults(m: Meaning, ops: seq<Op>, r: Meaning) {
    && r.predicates == m.predicates + Wheres(ops) && r.order == m.order + Orders(ops)
    && r.fields == m.fields + Selects(ops) && r.modifiers == m.modifiers + Locks(ops)
    && r.inters == m.inters
  }

  ghost predicate ValueResults(m: Meaning, ops: seq<Op>, r: Meaning) {
    && r.limit == Latest(LastLimit(ops), m.limit) && r.offset == Latest(LastOffset(ops), m.offset)
    && r.unique == Latest(LastUnique(ops), m.unique) && r.path == m.path
  }

  /** Edge e of `r`, given the last With call on it. */
  ghost predicate EdgeResults(m: Meaning, last: Option<Op>, e: nat, r: Meaning)
    requires e < |r.edges| == |m.edges|
    decreases r, 0
  {
    match last
    case Some(With(_, width, inters, calls)) => r.edges[e].Some? && ChildResults(width, inters, calls, r.edges[e].value)
    case _ => r.edges[e] == m.edges[e]
  }

  /** `r` is a new builder after these calls. */
  ghost predicate ChildResults(width: nat, inters: seq<Token>, calls: seq<Op>, r: Meaning)
    decreases r, 2
  {
    Results(Meaning(None, None, None, [], [], inters, [], [], None, seq(width, i requires 0 <= i => None)), calls, r)
  }

  /** Applying calls one after the other has that result. */
  lemma {:induction false} AppliedResults(m: Meaning, ops: seq<Op>)
    ensures Results(m, ops, ApplyAll(m, ops))
    decreases ops
  {
    if ops == [] {
    } else {
      var before, last := ops[..|ops| - 1], ops[|ops| - 1];
      AppliedResults(m, before);
      if last.With? {
        AppliedResults(NewMeaning(last.width, last.inters, None), last.calls);
        WithStep(m, ops, ApplyAll(m, before));
      } else {
        PlainStep(m, ops, ApplyAll(m, before));
      }
    }
  }

  lemma ListsStep(m: Meaning, ops: seq<Op>, r: Meaning)
    requires ops != [] && ListResults(m, ops[..|ops| - 1], r)
    ensures ListResults(m, ops, Apply(r, ops[|ops| - 1]))
  {
  }

  lemma ValuesStep(m: Meaning, ops: seq<Op>, r: Meaning)
    requires ops != [] && ValueResults(m, ops[..|ops| - 1], r)
    ensures ValueResults(m, ops, Apply(r, ops[|ops| - 1]))
  {
  }

  lemma PlainStep(m: Meaning, ops: seq<Op>, r: Meaning)
    requires ops != [] && !ops[|ops| - 1].With? && Results(m, ops[..|ops| - 1], r)
    ensures Results(m, ops, Apply(r, ops[|ops| - 1]))
  {
    var r' := Apply(r, ops[|ops| - 1]);
    ListsStep(m, ops, r);
    ValuesStep(m, ops, r);
    assert r'.edges == r.edges;
    forall e | 0 <= e < |r'.edges| ensures EdgeResults(m, LastWith(ops, e), e, r') {
      assert EdgeResults(m, LastWith(ops[..|ops| - 1], e), e, r);
    }
  }

  lemma WithStep(m: Meaning, ops: seq<Op>, r: Meaning)
    requires ops != [] && ops[|ops| - 1].With? && Results(m, ops[..|ops| - 1], r)
    requires var last := ops[|ops| - 1];
             ChildResults(last.width, last.inters, last.calls, ApplyAll(NewMeaning(last.width, last.inters, None), last.calls))
    ensures Results(m, ops, Apply(r, ops[|ops| - 1]))
  {
    var r' := Apply(r, ops[|ops| - 1]);
    ListsStep(m, ops, r);
    ValuesStep(m, ops, r);
    forall e | 0 <= e < |r'.edges| ensures EdgeResults(m, LastWith(ops, e), e, r') {
      assert EdgeResults(m, LastWith(ops[..|ops| - 1], e), e, r);
    }
  }

  // ------------------------------------------------------------------ whole runs

  /**
   * Clone a builder, then make any calls on the two in any interleaving: each ends up
   * meaning what its own calls alone make of its own start, so neither can observe the
   * other. The clone starts as the original without row-lock modifiers.
   */
  method CloneAndDiverge(q: Query, script: seq<Step>) returns (c: Query)
    requires q.Valid()
    modifies q.Repr
    ensures q.Valid() && c.Valid() && q.Repr !! c.Repr
    ensures Results(old(q.View()), CallsOn(script, false), q.View())
    ensures exists start :: SameButLocks(start, old(q.View())) && Results(start, CallsOn(script, true), c.View())
  {
    c := q.Clone();
    Diverge(q, c, script);
    UnlockedExactly(Unlocked(old(q.View())), old(q.View()));
    AppliedResults(old(q.View()), CallsOn(script, false));
    AppliedResults(Unlocked(old(q.View())), CallsOn(script, true));
  }

  /** Any interleaving of calls on two builders that share nothing. */
  method Diverge(q: Query, c: Query, script: seq<Step>)
    requires q.Valid() && c.Valid() && q.Repr !! c.Repr
    modifies q.Repr, c.Repr
    ensures q.Valid() && c.Valid() && q.Repr !! c.Repr
    ensures q.View() == ApplyAll(old(q.View()), CallsOn(script, false))
    ensures c.View() == ApplyAll(old(c.View()), CallsOn(script, true))
  {
    for i := 0 to |script|
      invariant q.Valid() && c.Valid() && q.Repr !! c.Repr
      invariant fresh(q.Repr - old(q.Repr)) && fresh(c.Repr - old(c.Repr))
      invariant q.View() == ApplyAll(old(q.View()), CallsOn(script[..i], false))
      invariant c.View() == ApplyAll(old(c.View()), CallsOn(script[..i], true))
    {
      CallsSnoc(old(q.View()), script, i, false);
      CallsSnoc(old(c.View()), script, i, true);
      OneStep(q, c, script[i]);
    }
    assert script[..|script|] == script;
  }

  /** One call on one of two builders that share nothing leaves the other's meaning alone. */
  method OneStep(q: Query, c: Query, step: Step)
    requires q.Valid() && c.Valid() && q.Repr !! c.Repr
    modifies q.Repr, c.Repr
    ensures q.Valid() && c.Valid() && q.Repr !! c.Repr
    ensures fresh(q.Repr - old(q.Repr)) && fresh(c.Repr - old(c.Repr))
    ensures q.View() == if step.onClone then old(q.View()) else Apply(old(q.View()), step.op)
    ensures c.View() == if step.onClone then Apply(old(c.View()), step.op) else old(c.View())
  {
    if step.onClone {
      c.Do(step.op);
      q.Kept();
    } else {
      q.Do(step.op);
      c.Kept();
    }
  }

  /** `c` is `m` at every level, but without row locks. */
  ghost predicate SameButLocks(c: Meaning, m: Meaning)
    decreases m
  {
    && c.limit == m.limit && c.offset == m.offset && c.unique == m.unique && c.fields == m.fields && c.order == m.order
    && c.inters == m.inters && c.predicates == m.predicates && c.path == m.path && c.modifiers == []
    && |c.edges| == |m.edges|
    && forall e :: 0 <= e < |m.edges| ==>
         if m.edges[e].None? then c.edges[e].None? else c.edges[e].Some? && SameButLocks(c.edges[e].value, m.edges[e].value)
  }

  /** What `Clone` makes is that and nothing else. */
  lemma {:induction false} UnlockedExactly(c: Meaning, m: Meaning)
    ensures SameButLocks(c, m) <==> c == Unlocked(m)
    decreases m
  {
    var u := Unlocked(m);
    forall e | 0 <= e < |m.edges| && m.edges[e].Some? && e < |c.edges| && c.edges[e].Some?
      ensures SameButLocks(c.edges[e].value, m.edges[e].value) <==> c.edges[e].value == Unlocked(m.edges[e].value)
    {
      UnlockedExactly(c.edges[e].value, m.edges[e].value);
    }
    assert forall e :: 0 <= e < |m.edges| ==> u.edges[e] == UnlockedEdge(m.edges[e]);
    if SameButLocks(c, m) {
      assert c.edges == u.edges;
    }
  }

  /** No builder of the tree carries a row lock. */
  ghost predicate LockFree(m: Meaning) {
    m.modifiers == [] && forall i :: 0 <= i < |m.edges| && m.edges[i].Some? ==> LockFree(m.edges[i].value)
  }

  /** The clone means exactly what the original means if and only if no builder of the tree carries a lock. */
  lemma {:induction false} CloneExactlyWhenLockFree(m: Meaning)
    ensures Unlocked(m) == m <==> LockFree(m)
    ensures LockFree(Unlocked(m))
  {
    forall i | 0 <= i < |m.edges| && m.edges[i].Some?
      ensures Unlocked(m.edges[i].value) == m.edges[i].value <==> LockFree(m.edges[i].value)
      ensures LockFree(Unlocked(m.edges[i].value))
    {
      CloneExactlyWhenLockFree(m.edges[i].value);
    }
    var u := Unlocked(m);
    assert forall i :: 0 <= i < |m.edges| ==> u.edges[i] == UnlockedEdge(m.edges[i]);
    if LockFree(m) {
      assert u.edges == m.edges;
    }
    if u == m {
      forall i | 0 <= i < |m.edges| && m.edges[i].Some? ensures LockFree(m.edges[i].value) {
        assert u.edges[i] == m.edges[i];
      }
    }
  }

  // ------------------------------------------------------------------ bounded fetches

  /**
   * What the database answers: a failure, or the IDs of the matching rows in order, before
   * DISTINCT and LIMIT. `several` is whatever scanning more than one column into a list of
   * IDs gives; `edges` is the error, if any, of loading the requested edges of given rows.
   */
  datatype Engine = Engine(
    rows: Meaning -> Result<seq<int>, string>,
    several: Meaning -> Result<seq<int>, string>,
    edges: (seq<Option<Meaning>>, seq<int>) -> Option<string>)

  datatype Answer = One(id: int) | NotFound | NotSingular | Failed(msg: string)

  /** SELECT DISTINCT over rows that include the primary key keeps the first row of each ID. */
  function Dedup(ids: seq<int>): seq<int> {
    if ids == [] then []
    else
      var before := Dedup(ids[..|ids| - 1]);
      if ids[|ids| - 1] in before then before else before + [ids[|ids| - 1]]
  }

  /** What decides which rows match: not DISTINCT, OFFSET, LIMIT or the columns. */
  function Bare(m: Meaning): Meaning {
    m.(limit := None, offset := None, unique := None, fields := [])
  }

  function Matching(m: Meaning, run: Engine): Result<seq<int>, string> {
    run.rows(Bare(m))
  }

  const MAX_INT32 := 0x7fff_ffff

  /** DISTINCT, then OFFSET, then LIMIT; an offset without a limit comes with the largest 32-bit one. */
  function Page(m: Meaning, distinct: bool, ids: seq<int>): seq<int> {
    var rows := if distinct then Dedup(ids) else ids;
    Truncated(Dropped(rows, m.offset), if m.limit.None? && m.offset.Some? then Some(MAX_INT32) else m.limit)
  }

  function Dropped(ids: seq<int>, offset: Option<int>): seq<int> {
    if offset.None? || offset.value <= 0 then ids else if offset.value < |ids| then ids[offset.value..] else []
  }

  function Truncated(ids: seq<int>, limit: Option<int>): seq<int> {
    if limit.Some? && 0 < limit.value < |ids| then ids[..limit.value] else ids
  }

  /** The main query of `All`: DISTINCT when asked for, or by default on a traversal. */
  function Rows(m: Meaning, run: Engine): Result<seq<int>, string> {
    match Matching(m, run)
    case Failure(e) => Failure(e)
    case Success(ids) =>
      var distinct := m.unique == Some(true) || (m.unique == None && m.path.Some?);
      Success(Page(m, distinct, ids))
  }

  /** The error of the eager loads for these rows; without rows or requested edges nothing is loaded. */
  function EdgeError(m: Meaning, ids: seq<int>, run: Engine): Option<string> {
    if ids == [] || forall c :: c in m.edges ==> c == None then None else run.edges(m.edges, ids)
  }

  /** `All`: the rows and then their edges. */
  function All(m: Meaning, run: Engine): Result<seq<int>, string> {
    match Rows(m, run)
    case Failure(e) => Failure(e)
    case Success(ids) => if EdgeError(m, ids, run).Some? then Failure(EdgeError(m, ids, run).value) else Success(ids)
  }

  /** `IDs`: sets Unique on a traversal, adds the ID column to the selected ones, scans. */
  function IDs(m: Meaning, run: Engine): (Meaning, Result<seq<int>, string>)
  {
    var m1 := if m.unique == None && m.path.Some? then Apply(m, Unique(true)) else m;
    var m2 := Apply(m1, Select([ID_COLUMN]));
    (m2, Scan(m2, run))
  }

  /** `Select(...).Scan` into a list of IDs: DISTINCT only when asked for. */
  function Scan(m: Meaning, run: Engine): Result<seq<int>, string> {
    if |m.fields| > 1 then run.several(m)
    else match Matching(m, run)
      case Failure(e) => Failure(e)
      case Success(ids) => Success(Page(m, m.unique == Some(true), ids))
  }

  const ID_COLUMN: Token := 0

  function Singular(rows: Result<seq<int>, string>): Answer {
    match rows
    case Failure(e) => Failed(e)
    case Success(ids) => if |ids| == 1 then One(ids[0]) else if |ids| == 0 then NotFound else NotSingular
  }

  function Leading(rows: Result<seq<int>, string>): Answer {
    match rows
    case Failure(e) => Failed(e)
    case Success(ids) => if |ids| == 0 then NotFound else One(ids[0])
  }

  function First(m: Meaning, run: Engine): (Meaning, Answer) {
    var m1 := Apply(m, Limit(1));
    (m1, Leading(All(m1, run)))
  }

  function FirstID(m: Meaning, run: Engine): (Meaning, Answer) {
    var r := IDs(Apply(m, Limit(1)), run);
    (r.0, Leading(r.1))
  }

  function Only(m: Meaning, run: Engine): (Meaning, Answer) {
    var m1 := Apply(m, Limit(2));
    (m1, Singular(All(m1, run)))
  }

  function OnlyID(m: Meaning, run: Engine): (Meaning, Answer) {
    var r := IDs(Apply(m, Limit(2)), run);
    (r.0, Singular(r.1))
  }

  function Exist(m: Meaning, run: Engine): Result<bool, string> {
    match FirstID(m, run).1
    case NotFound => Success(false)
    case Failed(e) => Failure(e)
    case _ => Success(true)
  }

  /** All rows of the query, whatever limit the builder carried before. */
  function Unbounded(m: Meaning, run: Engine): Result<seq<int>, string> {
    Rows(m.(limit := None), run)
  }

  /** The error, if any, of loading the edges of the first n rows of the unbounded result. */
  ghost function LoadError(m: Meaning, n: nat, run: Engine): Option<string> {
    match Unbounded(m, run)
    case Failure(_) => None
    case Success(ids) =>
      if ids != [] && exists e :: 0 <= e < |m.edges| && m.edges[e].Some? then run.edges(m.edges, if n < |ids| then ids[..n] else ids) else None
  }

  /** The answer that `rows` call for: their only row, not-found without rows, not-singular with more than one. */
  ghost predicate Decides(rows: Result<seq<int>, string>, a: Answer) {
    && (rows.Failure? ==> a == Failed(rows.error))
    && (rows.Success? && |rows.value| == 0 ==> a == NotFound)
    && (rows.Success? && |rows.value| == 1 ==> a == One(rows.value[0]))
    && (rows.Success? && |rows.value| >= 2 ==> a == NotSingular)
  }

  /** The first row, or not-found. */
  ghost predicate Leads(rows: Result<seq<int>, string>, a: Answer) {
    && (rows.Failure? ==> a == Failed(rows.error))
    && (rows.Success? && rows.value == [] ==> a == NotFound)
    && (rows.Success? && rows.value != [] ==> a == One(rows.value[0]))
  }

  /** The answer of a fetch of whole rows: two of them decide, unless their edges fail to load. */
  ghost predicate OnlyAnswers(m: Meaning, run: Engine, a: Answer) {
    match LoadError(m, 2, run)
    case None => Decides(Unbounded(m, run), a)
    case Some(e) => a == Failed(e)
  }

  ghost predicate FirstAnswers(m: Meaning, run: Engine, a: Answer) {
    match LoadError(m, 1, run)
    case None => Leads(Unbounded(m, run), a)
    case Some(e) => a == Failed(e)
  }

  /** DISTINCT keeps the first row of each ID, in order. */
  lemma {:induction false} DedupIs(ids: seq<int>) returns (ps: seq<nat>)
    ensures FirstsAt(ids, ps) && TakenAt(ids, ps, Dedup(ids))
    ensures forall x :: x in Dedup(ids) <==> x in ids
  {
    if ids == [] {
      ps := [];
    } else {
      var before, last := ids[..|ids| - 1], ids[|ids| - 1];
      ps := DedupIs(before);
      assert ids == before + [last];
      FirstsSnoc(before, last, ps);
      TakenSnoc(before, last, ps, Dedup(before));
      ps := if last in before then ps else ps + [|before|];
    }
  }

  /** The unbounded result: the matching rows, each once where DISTINCT applies, without the first `offset`. */
  lemma UnboundedRowsAre(m: Meaning, run: Engine)
    ensures match run.rows(m.(limit := None, offset := None, unique := None, fields := []))
            case Failure(e) => Unbounded(m, run) == Failure(e)
            case Success(all) =>
              var rows := if m.unique == Some(true) || (m.unique == None && m.path.Some?) then Dedup(all) else all;
              var skip := if m.offset.Some? && m.offset.value > 0 then m.offset.value else 0;
              && Unbounded(m, run).Success?
              && var left := if skip < |rows| then |rows| - skip else 0;
                 var ids := Unbounded(m, run).value;
                 && |ids| == (if m.offset.Some? && left > 0x7fff_ffff then 0x7fff_ffff else left)
                 && forall i :: 0 <= i < |ids| ==> ids[i] == rows[skip + i]
  {
  }

  /** A page of n rows is the first n rows of the unlimited page. */
  lemma ShorterPage(m: Meaning, n: int, distinct: bool, ids: seq<int>)
    requires 0 < n <= MAX_INT32
    ensures Page(Apply(m, Limit(n)), distinct, ids) == Truncated(Page(m.(limit := None), distinct, ids), Some(n))
  {
  }

  /** So the main query, and the ID scan without an earlier selection, fetch the first n rows of the unbounded result. */
  lemma LimitedRows(m: Meaning, n: int, run: Engine)
    requires 0 < n <= MAX_INT32
    ensures var limited := match Unbounded(m, run) case Failure(e) => Failure(e) case Success(ids) => Success(Truncated(ids, Some(n)));
            Rows(Apply(m, Limit(n)), run) == limited && (m.fields == [] ==> IDs(Apply(m, Limit(n)), run).1 == limited)
  {
    var distinct := m.unique == Some(true) || (m.unique == None && m.path.Some?);
    assert Bare(Apply(m, Limit(n))) == Bare(m) && Bare(m.(limit := None)) == Bare(m);
    assert Bare(IDs(Apply(m, Limit(n)), run).0) == Bare(m);
    if Matching(m, run).Success? {
      ShorterPage(m, n, distinct, Matching(m, run).value);
    }
  }

  /**
   * A fetch of two rows decides a fact about all rows: `Only` and `OnlyID` answer with the
   * row, not-found or not-singular exactly when the unbounded result has one, no or more
   * rows, whatever limit was set earlier. `Only` may also fail to load the edges of the two
   * rows; `OnlyID` loads none, but needs a builder without selected columns.
   */
  lemma OnlyDecidesUnbounded(m: Meaning, run: Engine)
    ensures OnlyAnswers(m, run, Only(m, run).1)
    ensures m.fields == [] ==> Decides(Unbounded(m, run), OnlyID(m, run).1)
  {
    LimitedRows(m, 2, run);
    EdgeErrorIs(m, 2, run);
  }

  lemma EdgeErrorIs(m: Meaning, n: nat, run: Engine)
    requires n > 0
    ensures Unbounded(m, run).Success? ==>
              EdgeError(Apply(m, Limit(n)), Truncated(Unbounded(m, run).value, Some(n)), run) == LoadError(m, n, run)
  {
    if e :| 0 <= e < |m.edges| && m.edges[e].Some? {
      assert m.edges[e] in m.edges;
    }
  }

  /** `First` and `Exist` decide whether the unbounded result is empty; `Exist` loads no edges. */
  lemma FirstDecidesEmptiness(m: Meaning, run: Engine)
    ensures FirstAnswers(m, run, First(m, run).1)
    ensures m.fields == [] ==> Leads(Unbounded(m, run), FirstID(m, run).1)
    ensures m.fields == [] ==>
              match Unbounded(m, run)
              case Failure(e) => Exist(m, run) == Failure(e)
              case Success(ids) => Exist(m, run) == Success(ids != [])
  {
    LimitedRows(m, 1, run);
    EdgeErrorIs(m, 1, run);
  }

  /** `Exist` is true exactly when `First` succeeds, if and only if the edges of the first row can be loaded. */
  lemma ExistExactlyWhenFirst(m: Meaning, run: Engine)
    requires m.fields == []
    ensures (Exist(m, run) == Success(true) <==> First(m, run).1.One?) <==> LoadError(m, 1, run).None?
  {
    FirstDecidesEmptiness(m, run);
  }

  /**
   * `Select` appends, so an earlier selection makes the ID fetches scan several columns.
   * Whatever such a scan gives, `OnlyID` and `FirstID` answer like `Only` and `First` exactly
   * when nothing was selected before and the edges of the fetched rows can be loaded.
   */
  lemma IDFetchesAgreeExactlyWhen(m: Meaning, run: Engine)
    ensures (forall several :: var run' := run.(several := several); OnlyID(m, run').1 == Only(m, run').1) <==>
            m.fields == [] && LoadError(m, 2, run).None?
    ensures (forall several :: var run' := run.(several := several); FirstID(m, run').1 == First(m, run').1) <==>
            m.fields == [] && LoadError(m, 1, run).None?
  {
    if m.fields == [] {
      forall several
        ensures var run' := run.(several := several);
                && (OnlyID(m, run').1 == Only(m, run').1 <==> LoadError(m, 2, run).None?)
                && (FirstID(m, run').1 == First(m, run').1 <==> LoadError(m, 1, run).None?)
      {
        var run' := run.(several := several);
        assert Unbounded(m, run') == Unbounded(m, run);
        OnlyDecidesUnbounded(m, run');
        FirstDecidesEmptiness(m, run');
      }
      assert run == run.(several := run.several);
    } else {
      SelectedScansDiffer(m, run);
    }
  }

  /** After a selection, two scans that differ make the ID fetches differ while the others stay the same. */
  lemma SelectedScansDiffer(m: Meaning, run: Engine)
    requires m.fields != []
    ensures exists several :: var run' := run.(several := several); OnlyID(m, run').1 != Only(m, run').1
    ensures exists several :: var run' := run.(several := several); FirstID(m, run').1 != First(m, run').1
  {
    var good: Meaning -> Result<seq<int>, string> := _ => Success([]);
    var bad: Meaning -> Result<seq<int>, string> := _ => Failure("columns");
    var a, b := run.(several := good), run.(several := bad);
    assert OnlyID(m, a).1 == NotFound && OnlyID(m, b).1 == Failed("columns");
    assert FirstID(m, a).1 == NotFound && FirstID(m, b).1 == Failed("columns");
    assert Only(m, a).1 == Only(m, b).1 && First(m, a).1 == First(m, b).1;
    assert OnlyID(m, a).1 != Only(m, a).1 || OnlyID(m, b).1 != Only(m, b).1;
    assert FirstID(m, a).1 != First(m, a).1 || FirstID(m, b).1 != First(m, b).1;
  }

  /** The bound stays on the builder: its main query, run again after `Only`, yields at most the first two rows. */
  lemma OnlyLeavesItsLimit(m: Meaning, run: Engine)
    ensures var again := Rows(Only(m, run).0, run);
            match Unbounded(m, run)
            case Failure(e) => again == Failure(e)
            case Success(ids) => again == Success(if |ids| <= 2 then ids else ids[..2])
  {
    LimitedRows(m, 2, run);
  }

  // ------------------------------------------------------------------ the fetches on the builder object

  /** What `IDs` leaves on a builder: DISTINCT on a traversal that did not set it, and the ID column at the end. */
  ghost function Scanned(m: Meaning): Meaning {
    m.(unique := if m.unique == None && m.path.Some? then Some(true) else m.unique, fields := m.fields + [ID_COLUMN])
  }

  /** `IDs` on the object: what it leaves on the builder and what it answers. */
  method FetchIDs(q: Query, run: Engine) returns (rows: Result<seq<int>, string>)
    requires q.Valid()
    modifies q.Repr
    ensures q.Valid() && fresh(q.Repr - old(q.Repr))
    ensures q.View() == Scanned(old(q.View()))
    ensures (q.View(), rows) == IDs(old(q.View()), run)
  {
    if q.ctx.unique == None && q.path.Some? {
      q.SetContext(q.ctx.limit, q.ctx.offset, Some(true));
    }
    q.SelectFields([ID_COLUMN]);
    var m := q.Snapshot();
    rows := Scan(m, run);
  }

  /** `Only` on the object: it decides about the unlimited result and leaves its limit behind. */
  method FetchOnly(q: Query, run: Engine) returns (a: Answer)
    requires q.Valid()
    modifies q.Repr
    ensures q.Valid() && q.View() == old(q.View()).(limit := Some(2))
    ensures OnlyAnswers(old(q.View()), run, a)
  {
    OnlyDecidesUnbounded(q.View(), run);
    q.SetContext(Some(2), q.ctx.offset, q.ctx.unique);
    var m := q.Snapshot();
    a := Singular(All(m, run));
  }

  /** `OnlyID` on the object. */
  method FetchOnlyID(q: Query, run: Engine) returns (a: Answer)
    requires q.Valid()
    modifies q.Repr
    ensures q.Valid() && q.View() == Scanned(old(q.View())).(limit := Some(2))
    ensures old(q.View()).fields == [] ==> Decides(Unbounded(old(q.View()), run), a)
  {
    OnlyDecidesUnbounded(q.View(), run);
    q.SetContext(Some(2), q.ctx.offset, q.ctx.unique);
    var rows := FetchIDs(q, run);
    a := Singular(rows);
  }

  /** `First` on the object. */
  method FetchFirst(q: Query, run: Engine) returns (a: Answer)
    requires q.Valid()
    modifies q.Repr
    ensures q.Valid() && q.View() == old(q.View()).(limit := Some(1))
    ensures FirstAnswers(old(q.View()), run, a)
  {
    FirstDecidesEmptiness(q.View(), run);
    q.SetContext(Some(1), q.ctx.offset, q.ctx.unique);
    var m := q.Snapshot();
    a := Leading(All(m, run));
  }

  /** `Exist` on the object: true exactly when the unlimited result has a row. */
  method FetchExist(q: Query, run: Engine) returns (r: Result<bool, string>)
    requires q.Valid()
    modifies q.Repr
    ensures q.Valid() && q.View() == Scanned(old(q.View())).(limit := Some(1))
    ensures r == Exist(old(q.View()), run)
    ensures old(q.View()).fields == [] ==>
              match Unbounded(old(q.View()), run)
              case Failure(e) => r == Failure(e)
              case Success(ids) => r == Success(ids != [])
  {
    FirstDecidesEmptiness(q.View(), run);
    q.SetContext(Some(1), q.ctx.offset, q.ctx.unique);
    var rows := FetchIDs(q, run);
    match Leading(rows)
    case NotFound => r := Success(false);
    case Failed(e) => r := Failure(e);
    case One(_) => r := Success(true);
  }
}
