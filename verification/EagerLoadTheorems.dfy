/**
 * What the eager-loading joins mean: no neighbour is lost, invented or repeated, both
 * directions of an edge agree, and the exact conditions under which that stops being so.
 */
module EagerLoadTheorems {
  import opened Prelude
  import opened EagerLoad

  ghost predicate DistinctIds(ns: seq<Rec>) {
    forall i, j :: 0 <= i < j < |ns| ==> ns[i].id != ns[j].id
  }

  ghost predicate HasId(ns: seq<Rec>, id: int) {
    exists n :: n in ns && n.id == id
  }

  // ------------------------------------------------------------------ many-to-many

  lemma {:induction false} FirstSeenIds(rows: seq<JoinRow>)
    ensures DistinctIds(FirstSeen(rows))
    ensures forall id :: HasId(FirstSeen(rows), id) <==> Scanned(rows, id)
  {
    if rows == [] {
    } else {
      var last, before := rows[|rows| - 1], rows[..|rows| - 1];
      FirstSeenIds(before);
      assert rows == before + [last];
      var ns := FirstSeen(before);
      assert forall i :: 0 <= i < |ns| ==> HasId(ns, ns[i].id);
      forall id ensures HasId(FirstSeen(rows), id) <==> Scanned(rows, id) {
        assert HasId(ns + [last.rec], id) <==> HasId(ns, id) || id == last.rec.id by {
          assert last.rec in ns + [last.rec];
        }
      }
    }
  }

  function RecIds(rows: seq<JoinRow>): seq<int> {
    seq(|rows|, i requires 0 <= i < |rows| => rows[i].rec.id)
  }

  function Recs(rows: seq<JoinRow>): seq<Rec> {
    seq(|rows|, i requires 0 <= i < |rows| => rows[i].rec)
  }

  /** The scanner keeps the record of the first row of each neighbour, in the order of these rows. */
  lemma {:induction false} FirstSeenIs(rows: seq<JoinRow>) returns (ps: seq<nat>)
    ensures FirstsAt(RecIds(rows), ps) && TakenAt(Recs(rows), ps, FirstSeen(rows))
  {
    if rows == [] {
      ps := [];
    } else {
      ps := FirstSeenIs(rows[..|rows| - 1]);
      ps := FirstSeenStep(rows, ps);
    }
  }

  lemma FirstSeenStep(rows: seq<JoinRow>, before: seq<nat>) returns (ps: seq<nat>)
    requires rows != []
    requires var init := rows[..|rows| - 1]; FirstsAt(RecIds(init), before) && TakenAt(Recs(init), before, FirstSeen(init))
    ensures FirstsAt(RecIds(rows), ps) && TakenAt(Recs(rows), ps, FirstSeen(rows))
  {
    var init, last := rows[..|rows| - 1], rows[|rows| - 1];
    assert RecIds(rows) == RecIds(init) + [last.rec.id] && Recs(rows) == Recs(init) + [last.rec];
    FirstsSnoc(RecIds(init), last.rec.id, before);
    TakenSnoc(Recs(init), last.rec, before, FirstSeen(init));
    ScannedIds(init, last.rec.id);
    if Scanned(init, last.rec.id) {
      ps := before;
      assert FirstSeen(rows) == FirstSeen(init);
    } else {
      ps := before + [|init|];
      assert FirstSeen(rows) == FirstSeen(init) + [last.rec];
    }
  }

  lemma ScannedIds(rows: seq<JoinRow>, id: int)
    ensures Scanned(rows, id) <==> id in RecIds(rows)
  {
    if Scanned(rows, id) {
      var i :| 0 <= i < |rows| && rows[i].rec.id == id;
      assert RecIds(rows)[i] == id;
    }
  }

  lemma {:induction false} FilterKeepsDistinct(ns: seq<Rec>, p: Rec -> bool)
    requires DistinctIds(ns)
    ensures DistinctIds(Filter(ns, p))
  {
    if ns == [] {
    } else {
      var before := ns[..|ns| - 1];
      FilterKeepsDistinct(before, p);
      forall n | n in Filter(before, p) ensures n.id != ns[|ns| - 1].id {
        FilterMember(before, p, n);
        var i :| 0 <= i < |before| && before[i] == n;
      }
    }
  }

  /**
   * Without interceptors, each account's groups are exactly the groups paired with it in
   * the join rows, once each however often the pairs repeat.
   */
  lemma JoinOnceEach(rows: seq<JoinRow>, out: int)
    ensures var groups := Filter(FirstSeen(rows), PairedWith(rows, out));
            DistinctIds(groups) && forall id :: HasId(groups, id) <==> Paired(rows, out, id)
  {
    FirstSeenIds(rows);
    FilterKeepsDistinct(FirstSeen(rows), PairedWith(rows, out));
    var groups := Filter(FirstSeen(rows), PairedWith(rows, out));
    forall id ensures HasId(groups, id) <==> Paired(rows, out, id) {
      if HasId(groups, id) {
        var n :| n in groups && n.id == id;
        FilterMember(FirstSeen(rows), PairedWith(rows, out), n);
      }
      if Paired(rows, out, id) {
        assert Scanned(rows, id);
        var n :| n in FirstSeen(rows) && n.id == id;
        FilterMember(FirstSeen(rows), PairedWith(rows, out), n);
      }
    }
  }

  lemma {:induction false} ResolvedExactlyLast(nodes: seq<Node>, i: nat)
    requires Distinct(nodes) && i < |nodes|
    ensures Resolved(nodes, nodes[i]) <==> forall j :: i < j < |nodes| ==> nodes[j].id != nodes[i].id
  {
    var before, last := nodes[..|nodes| - 1], nodes[|nodes| - 1];
    if i < |nodes| - 1 {
      ResolvedExactlyLast(before, i);
      assert before[i] == nodes[i];
      assert nodes[i] != last;
      if last.id != nodes[i].id {
        assert Resolved(nodes, nodes[i]) <==> Resolved(before, nodes[i]);
        assert forall j :: i < j < |before| ==> before[j] == nodes[j];
      }
    }
  }

  ghost predicate DistinctNodeIds(nodes: seq<Node>) {
    forall i, j :: 0 <= i < j < |nodes| ==> nodes[i].id != nodes[j].id
  }

  /** With distinct IDs every node resolves to itself, so no loader overlooks one. */
  lemma DistinctIdsResolve(nodes: seq<Node>)
    requires Distinct(nodes) && DistinctNodeIds(nodes)
    ensures forall o :: o in nodes ==> Resolved(nodes, o)
  {
    forall o | o in nodes ensures Resolved(nodes, o) {
      var i :| 0 <= i < |nodes| && nodes[i] == o;
      ResolvedExactlyLast(nodes, i);
    }
  }

  /** Every node's edge is its nested-loop join. */
  ghost predicate RefinesJoin(nodes: seq<Node>, ns: seq<Rec>, rows: seq<JoinRow>) {
    forall o :: o in nodes ==> JoinEdge(nodes, o, ns, rows) == Filter(ns, PairedWith(rows, o.id))
  }

  /**
   * The hash join refines the nested-loop join, for every answer of the second query and
   * every interceptor, exactly when the nodes have distinct IDs: of nodes that share one,
   * only the last gets its neighbours.
   */
  lemma JoinRefinedExactlyWhenIdsDistinct(nodes: seq<Node>)
    requires Distinct(nodes)
    ensures (forall ns, rows :: RefinesJoin(nodes, ns, rows)) <==> DistinctNodeIds(nodes)
  {
    if DistinctNodeIds(nodes) {
      DistinctIdsResolve(nodes);
    } else {
      var i, j :| 0 <= i < j < |nodes| && nodes[i].id == nodes[j].id;
      ResolvedExactlyLast(nodes, i);
      var n := Rec(0, map[]);
      var rows := [JoinRow(nodes[i].id, n)];
      assert rows[0] in rows && Paired(rows, nodes[i].id, 0);
      assert JoinEdge(nodes, nodes[i], [n], rows) == [];
      assert Filter([n], PairedWith(rows, nodes[i].id)) == Filter([n][..0], PairedWith(rows, nodes[i].id)) + [n];
      assert !RefinesJoin(nodes, [n], rows);
    }
  }

  /** Stitching succeeds exactly when every neighbour can be placed. */
  lemma {:induction false} LoadedExactlyWhen(ns: seq<Rec>, judge: Rec -> Outcome)
    ensures FirstFailure(ns, judge) == Loaded <==> forall n :: n in ns ==> judge(n) == Loaded
  {
    if ns == [] {
    } else {
      LoadedExactlyWhen(ns[..|ns| - 1], judge);
      assert ns == ns[..|ns| - 1] + [ns[|ns| - 1]];
    }
  }

  /** Otherwise the first neighbour that cannot be placed decides. */
  lemma {:induction false} FailureIs(ns: seq<Rec>, judge: Rec -> Outcome) returns (i: nat)
    requires FirstFailure(ns, judge) != Loaded
    ensures i < |ns| && FirstFailure(ns, judge) == judge(ns[i]) != Loaded && forall j :: 0 <= j < i ==> judge(ns[j]) == Loaded
  {
    var before, n := ns[..|ns| - 1], |ns| - 1;
    if FirstFailure(before, judge) != Loaded {
      i := FailureIs(before, judge);
      assert forall j :: 0 <= j <= i ==> before[j] == ns[j];
    } else {
      i := n;
      LoadedExactlyWhen(before, judge);
      assert forall j :: 0 <= j < n ==> ns[j] == before[j] && before[j] in before;
    }
  }

  /** A many-to-many load fails with the first neighbour that was not scanned, or panics on one with an unknown parent. */
  lemma StitchFailureIs(ns: seq<Rec>, rows: seq<JoinRow>, ids: set<int>) returns (i: nat)
    requires StitchOutcome(ns, rows, ids) != Loaded
    ensures i < |ns|
    ensures StitchOutcome(ns, rows, ids) == if Scanned(rows, ns[i].id) then NilParent else UnexpectedNode(ns[i].id)
    ensures Scanned(rows, ns[i].id) ==> exists row :: row in rows && row.rec.id == ns[i].id && row.out !in ids
    ensures forall j :: 0 <= j < i ==> Scanned(rows, ns[j].id) && forall row :: row in rows && row.rec.id == ns[j].id ==> row.out in ids
  {
    i := FailureIs(ns, JoinJudge(rows, ids));
    forall j | 0 <= j < i ensures Scanned(rows, ns[j].id) && forall row :: row in rows && row.rec.id == ns[j].id ==> row.out in ids {
      assert JoinJudge(rows, ids)(ns[j]) == Loaded;
    }
  }

  lemma StitchLoadedExactlyWhen(ns: seq<Rec>, rows: seq<JoinRow>, ids: set<int>)
    ensures StitchOutcome(ns, rows, ids) == Loaded <==>
            forall n :: n in ns ==> Scanned(rows, n.id) && forall row :: row in rows && row.rec.id == n.id ==> row.out in ids
  {
    LoadedExactlyWhen(ns, JoinJudge(rows, ids));
  }

  // ------------------------------------------------------------------ one-to-many

  /** Stitching succeeds exactly when every neighbour's key is present and names a parent. */
  lemma OwnedLoadedExactlyWhen(ns: seq<Rec>, col: Column, ids: set<int>)
    ensures OwnerOutcome(ns, col, ids) == Loaded <==>
            forall n :: n in ns ==> n.Key(col).Some? && n.Key(col).value in ids
  {
    LoadedExactlyWhen(ns, OwnerJudge(col, ids));
  }

  /** A one-to-many load fails with the first neighbour whose key is NULL or unknown, and says which of the two it is. */
  lemma OwnedFailureIs(ns: seq<Rec>, col: Column, ids: set<int>) returns (i: nat)
    requires OwnerOutcome(ns, col, ids) != Loaded
    ensures i < |ns|
    ensures OwnerOutcome(ns, col, ids) == if ns[i].Key(col).None? then NilKey(ns[i].id) else UnexpectedNode(ns[i].id)
    ensures ns[i].Key(col).Some? ==> ns[i].Key(col).value !in ids
    ensures forall j :: 0 <= j < i ==> ns[j].Key(col).Some? && ns[j].Key(col).value in ids
  {
    i := FailureIs(ns, OwnerJudge(col, ids));
    forall j | 0 <= j < i ensures ns[j].Key(col).Some? && ns[j].Key(col).value in ids {
      assert OwnerJudge(col, ids)(ns[j]) == Loaded;
    }
  }

  /** The lists of all parents taken together. */
  function Gathered(ids: seq<int>, ns: seq<Rec>, col: Column): multiset<Rec> {
    if ids == [] then multiset{} else multiset(Filter(ns, Owned(col, ids[0]))) + Gathered(ids[1..], ns, col)
  }

  /** `n` alone, or nothing. */
  function Lone(b: bool, n: Rec): multiset<Rec> { if b then multiset{n} else multiset{} }

  lemma OwnedSnoc(id: int, ns: seq<Rec>, n: Rec, col: Column)
    ensures multiset(Filter(ns + [n], Owned(col, id))) == multiset(Filter(ns, Owned(col, id))) + Lone(n.Key(col) == Some(id), n)
  {
  }

  lemma SumOfSums(a: multiset<Rec>, da: multiset<Rec>, b: multiset<Rec>, db: multiset<Rec>)
    ensures (a + da) + (b + db) == (a + b) + (da + db)
  {
  }

  lemma {:induction false} GatheredSnoc(ids: seq<int>, ns: seq<Rec>, n: Rec, col: Column)
    requires Distinct(ids)
    ensures Gathered(ids, ns + [n], col) == Gathered(ids, ns, col) + Lone(n.Key(col).Some? && n.Key(col).value in ids, n)
  {
    if ids == [] {
    } else {
      var here, later := n.Key(col) == Some(ids[0]), n.Key(col).Some? && n.Key(col).value in ids[1..];
      GatheredSnoc(ids[1..], ns, n, col);
      OwnedSnoc(ids[0], ns, n, col);
      SumOfSums(multiset(Filter(ns, Owned(col, ids[0]))), Lone(here, n), Gathered(ids[1..], ns, col), Lone(later, n));
      HereOrLater(ids, n, col);
    }
  }

  lemma HereOrLater(ids: seq<int>, n: Rec, col: Column)
    requires Distinct(ids) && ids != []
    ensures Lone(n.Key(col) == Some(ids[0]), n) + Lone(n.Key(col).Some? && n.Key(col).value in ids[1..], n) ==
            Lone(n.Key(col).Some? && n.Key(col).value in ids, n)
  {
  }

  /**
   * One-to-many loading conserves rows: with distinct parent IDs and no error, the
   * parents' lists together hold every neighbour exactly once.
   */
  lemma {:induction false} OwnedRowsConserved(ids: seq<int>, ns: seq<Rec>, col: Column)
    requires Distinct(ids) && OwnerOutcome(ns, col, set id | id in ids) == Loaded
    ensures Gathered(ids, ns, col) == multiset(ns) && |Gathered(ids, ns, col)| == |ns|
  {
    if ns == [] {
      GatheredEmpty(ids, col);
    } else {
      var before, n := ns[..|ns| - 1], ns[|ns| - 1];
      assert ns == before + [n];
      OwnedRowsConserved(ids, before, col);
      GatheredSnoc(ids, before, n, col);
    }
  }

  /**
   * The same for a list of parents as the loader sees it: each parent's edge is the
   * nested-loop join, and all the edges together are the answer of the second query.
   */
  lemma LoadedRowsConserved(nodes: seq<Node>, ns: seq<Rec>, col: Column)
    requires Distinct(nodes) && DistinctNodeIds(nodes) && OwnerOutcome(ns, col, IdSet(nodes)) == Loaded
    ensures forall o :: o in nodes ==> OwnerEdge(nodes, o, ns, col) == Filter(ns, Owned(col, o.id))
    ensures Gathered(Ids(nodes), ns, col) == multiset(ns)
  {
    DistinctIdsResolve(nodes);
    var ids := Ids(nodes);
    forall x ensures x in IdSet(nodes) <==> x in ids {
      if x in IdSet(nodes) {
        var o :| o in nodes && o.id == x;
        var i :| 0 <= i < |nodes| && nodes[i] == o;
        assert ids[i] == x;
      }
    }
    assert IdSet(nodes) == set id | id in ids;
    OwnedRowsConserved(ids, ns, col);
  }

  lemma {:induction false} GatheredEmpty(ids: seq<int>, col: Column)
    ensures Gathered(ids, [], col) == multiset{}
  {
    if ids == [] {
    } else {
      GatheredEmpty(ids[1..], col);
    }
  }

  // ------------------------------------------------------------------ many-to-one

  /** Each distinct non-NULL key is asked for exactly once, and nothing else is. */
  lemma {:induction false} AskedOnce(nodes: seq<Node>, col: Column)
    ensures Distinct(AskedKeys(nodes, col))
    ensures forall k :: k in AskedKeys(nodes, col) <==> exists o :: o in nodes && o.Key(col) == Some(k)
  {
    if nodes == [] {
    } else {
      var before, last := nodes[..|nodes| - 1], nodes[|nodes| - 1];
      AskedOnce(before, col);
      assert nodes == before + [last];
    }
  }

  /** A many-to-one load succeeds exactly when every record returned was asked for, and else fails with the first that was not. */
  lemma KeyedOutcomeIs(ns: seq<Rec>, keys: seq<int>)
    ensures KeyOutcome(ns, keys) == Loaded <==> forall n :: n in ns ==> n.id in keys
    ensures KeyOutcome(ns, keys) != Loaded ==>
              exists i :: 0 <= i < |ns| && ns[i].id !in keys && KeyOutcome(ns, keys) == UnexpectedNode(ns[i].id) && AllAsked(ns[..i], keys)
  {
    LoadedExactlyWhen(ns, KeyJudge(keys));
    if KeyOutcome(ns, keys) != Loaded {
      var i := FailureIs(ns, KeyJudge(keys));
      forall n | n in ns[..i] ensures n.id in keys {
        var j :| 0 <= j < i && ns[j] == n;
        assert KeyJudge(keys)(ns[j]) == Loaded;
      }
      assert ns[i].id !in keys && AllAsked(ns[..i], keys);
    }
  }

  ghost predicate AllAsked(ns: seq<Rec>, keys: seq<int>) {
    forall n :: n in ns ==> n.id in keys
  }

  /** Record i is the last one with this ID. */
  ghost predicate LastAt(ns: seq<Rec>, id: int, i: int) {
    0 <= i < |ns| && ns[i].id == id && forall j :: i < j < |ns| ==> ns[j].id != id
  }

  lemma {:induction false} LastWithIdFacts(ns: seq<Rec>, id: int)
    ensures LastWithId(ns, id).Some? <==> HasId(ns, id)
    ensures LastWithId(ns, id).Some? ==> exists i :: LastAt(ns, id, i) && LastWithId(ns, id).value == ns[i]
  {
    if ns == [] {
    } else {
      var before, n := ns[..|ns| - 1], |ns| - 1;
      LastWithIdFacts(before, id);
      assert ns == before + [ns[n]] && ns[n] in ns;
      if ns[n].id == id {
        assert LastAt(ns, id, n);
      } else if HasId(before, id) {
        var i :| LastAt(before, id, i) && LastWithId(before, id).value == before[i];
        assert LastAt(ns, id, i) && ns[i] in ns;
      }
    }
  }

  /**
   * After loading an edge into a node that did not have it: the accessor says not-loaded
   * exactly when the edge was not requested and nothing was found; for a requested edge it
   * says not-found exactly when the key is NULL or no such record was returned; what it finds
   * is the last record returned with the key's ID. Other edges are as before.
   */
  lemma OneOrErrAfterLoad(one: map<Edge, Rec>, key: Option<int>, ns: seq<Rec>, e: Edge, requested: set<Edge>)
    requires e !in one
    ensures var answer := OneOrErr(OneEdge(one, e, key, ns), requested, e);
            var missing := key.None? || !HasId(ns, key.value);
            && (answer == NotLoaded <==> missing && e !in requested)
            && (answer == NotFound <==> missing && e in requested)
            && (!missing ==> exists i :: LastAt(ns, key.value, i) && answer == Found(ns[i]))
    ensures forall e' :: e' != e ==> OneOrErr(OneEdge(one, e, key, ns), requested, e') == OneOrErr(one, requested, e')
  {
    if key.Some? {
      LastWithIdFacts(ns, key.value);
    }
  }

  // ------------------------------------------------------------------ over one snapshot

  /** `ns` is some ordering of the rows of `table` whose key `col` is among `ids`. */
  ghost predicate Selects(ns: seq<Rec>, table: set<Rec>, col: Column, ids: set<int>) {
    forall n :: n in ns <==> n in table && n.Key(col).Some? && n.Key(col).value in ids
  }

  ghost predicate SelectsById(ns: seq<Rec>, table: set<Rec>, ids: seq<int>) {
    forall n :: n in ns <==> n in table && n.id in ids
  }

  /** `rows` is some ordering, with any repetitions, of links joined with groups for the parents `ids`. */
  ghost predicate SelectsJoin(rows: seq<JoinRow>, links: set<Rec>, groups: set<Rec>, ids: set<int>) {
    forall row :: row in rows <==>
      && row.out in ids && row.rec in groups
      && exists link :: link in links && link.Key(ACCOUNT_ID) == Some(row.out) && link.Key(GROUP_ID) == Some(row.rec.id)
  }

  ghost function GroupKeys(ns: seq<Rec>): set<int> {
    set n | n in ns && n.Key(GROUP_ID).Some? :: n.Key(GROUP_ID).value
  }

  /**
   * The two routes to membership: the IDs in an account's Groups are the group keys in its
   * AccountGroups, restricted to the groups that exist. So they agree exactly when every
   * linked group exists.
   */
  lemma RoutesToMembershipAgree(links: set<Rec>, groups: set<Rec>, ids: set<int>, rows: seq<JoinRow>, ns: seq<Rec>, a: int)
    requires a in ids && SelectsJoin(rows, links, groups, ids) && Selects(ns, links, ACCOUNT_ID, ids)
    ensures var joined := Filter(FirstSeen(rows), PairedWith(rows, a));
            var linked := Filter(ns, Owned(ACCOUNT_ID, a));
            forall g :: HasId(joined, g) <==> g in GroupKeys(linked) && exists r :: r in groups && r.id == g
  {
    JoinOnceEach(rows, a);
    var joined := Filter(FirstSeen(rows), PairedWith(rows, a));
    var linked := Filter(ns, Owned(ACCOUNT_ID, a));
    forall g ensures HasId(joined, g) <==> g in GroupKeys(linked) && exists r :: r in groups && r.id == g {
      if HasId(joined, g) {
        var row :| row in rows && row.out == a && row.rec.id == g;
        var link :| link in links && link.Key(ACCOUNT_ID) == Some(a) && link.Key(GROUP_ID) == Some(g);
        FilterMember(ns, Owned(ACCOUNT_ID, a), link);
        assert link in linked;
      }
      if g in GroupKeys(linked) && exists r :: r in groups && r.id == g {
        var r :| r in groups && r.id == g;
        var link :| link in linked && link.Key(GROUP_ID) == Some(g);
        FilterMember(ns, Owned(ACCOUNT_ID, a), link);
        assert JoinRow(a, r) in rows;
      }
    }
  }

  /**
   * Loading both directions over one snapshot gives inverse edges: a link is in an
   * account's AccountGroups list if and only if the account loaded for the link has that
   * account's ID.
   */
  lemma EdgesAreInverse(links: set<Rec>, accounts: set<Rec>, a: Rec, link: Rec,
                        ids: set<int>, ns: seq<Rec>, asked: seq<int>, loaded: seq<Rec>)
    requires a in accounts && a.id in ids && link in links
    requires Selects(ns, links, ACCOUNT_ID, ids)
    requires SelectsById(loaded, accounts, asked)
    requires link.Key(ACCOUNT_ID).Some? ==> link.Key(ACCOUNT_ID).value in asked
    ensures var one := OneEdge(map[], 0, link.Key(ACCOUNT_ID), loaded);
            link in Filter(ns, Owned(ACCOUNT_ID, a.id)) <==> 0 in one && one[0].id == a.id
  {
    FilterMember(ns, Owned(ACCOUNT_ID, a.id), link);
    if link.Key(ACCOUNT_ID).Some? {
      LastWithIdFacts(loaded, link.Key(ACCOUNT_ID).value);
      if link.Key(ACCOUNT_ID).value == a.id {
        assert a in loaded;
      }
    }
  }

  // ------------------------------------------------------------------ running one builder twice

  function InAll(col: Column, lists: seq<seq<int>>): Rec -> bool {
    (n: Rec) => n.Key(col).Some? && forall l :: l in lists ==> n.Key(col).value in l
  }

  /** The answer of a child builder over a fixed table: the rows whose key is in every list it accumulated. */
  function Answer(table: seq<Rec>, col: Column, lists: seq<seq<int>>): seq<Rec> {
    Filter(table, InAll(col, lists))
  }

  /** The children of `a` in such an answer: all of them if every list has `a`, else none. */
  lemma OwnedInAnswer(table: seq<Rec>, col: Column, lists: seq<seq<int>>, a: int)
    ensures Filter(Answer(table, col, lists), Owned(col, a)) ==
            if forall l :: l in lists ==> a in l then Filter(table, Owned(col, a)) else []
  {
    var both := (n: Rec) => InAll(col, lists)(n) && Owned(col, a)(n);
    FilterFilter(table, InAll(col, lists), Owned(col, a), both);
    if forall l :: l in lists ==> a in l {
      FilterCongruence(table, both, Owned(col, a));
    } else {
      FilterNone(table, both);
    }
  }

  /**
   * The loaders append their ID list to the stored child builder and never remove it. When
   * one builder is executed for a first page and then for a second, a parent of the second
   * page gets all its children if it was also on the first, and otherwise none.
   */
  lemma SecondPageSeesOnlyFirst(table: seq<Rec>, col: Column, first: seq<int>, second: seq<int>, a: int)
    requires a in second
    ensures Filter(Answer(table, col, [first, second]), Owned(col, a)) ==
            if a in first then Filter(table, Owned(col, a)) else []
    ensures Filter(Answer(table, col, [second]), Owned(col, a)) == Filter(table, Owned(col, a))
  {
    OwnedInAnswer(table, col, [first, second], a);
    OwnedInAnswer(table, col, [second], a);
    assert forall l :: l in [first, second] <==> l == first || l == second;
    assert forall l :: l in [second] <==> l == second;
  }

  /** The same over two executions of the one-to-many loader with one child builder. */
  method LoadTwoPages(page1: seq<Node>, page2: seq<Node>, table: seq<Rec>, col: Column, e: Edge) returns (out: Outcome)
    requires forall n :: n in table ==> n.Key(col).Some?
    modifies page1, page2
    ensures out == Loaded
    ensures forall o :: o in page2 && Resolved(page2, o) ==>
              e in o.many && o.many[e] == if o.id in Ids(page1) then Filter(table, Owned(col, o.id)) else []
  {
    var child := new Child<Rec>(lists => Success(Answer(table, col, lists)));
    out := LoadOneToMany(page1, col, e, child);
    assert [] + [Ids(page1)] == [Ids(page1)];
    out := LoadOneToMany(page2, col, e, child);
    assert child.lists == [Ids(page1), Ids(page2)];
    ghost var ns := Answer(table, col, child.lists);
    forall n | n in ns ensures n.Key(col).Some? && n.Key(col).value in IdSet(page2) {
      FilterMember(table, InAll(col, child.lists), n);
      assert Ids(page2) in child.lists;
    }
    OwnedLoadedExactlyWhen(ns, col, IdSet(page2));
    forall o | o in page2 && Resolved(page2, o)
      ensures e in o.many && o.many[e] == if o.id in Ids(page1) then Filter(table, Owned(col, o.id)) else []
    {
      var i :| 0 <= i < |page2| && page2[i] == o;
      assert Ids(page2)[i] == o.id;
      SecondPageSeesOnlyFirst(table, col, Ids(page1), Ids(page2), o.id);
    }
  }

  function InAllById(lists: seq<seq<int>>): Rec -> bool {
    (n: Rec) => forall l :: l in lists ==> n.id in l
  }

  /** The answer of a many-to-one child builder over a fixed table. */
  function AnswerById(table: seq<Rec>, lists: seq<seq<int>>): seq<Rec> {
    Filter(table, InAllById(lists))
  }

  /** The record that such an answer has for a key: the table's, if every list has the key. */
  lemma {:induction false} LastInAnswer(table: seq<Rec>, lists: seq<seq<int>>, k: int)
    ensures LastWithId(AnswerById(table, lists), k) == if forall l :: l in lists ==> k in l then LastWithId(table, k) else None
  {
    if table == [] {
    } else {
      var before, last := table[..|table| - 1], table[|table| - 1];
      LastInAnswer(before, lists, k);
      var kept := AnswerById(before, lists);
      if InAllById(lists)(last) {
        assert (kept + [last])[..|kept|] == kept;
      } else {
        assert AnswerById(table, lists) == kept;
      }
    }
  }

  /**
   * Two executions of the many-to-one loader with one child builder over a fixed table. On the
   * second page the accessor says not-found for a record that the table holds exactly when
   * the first page asked for some keys but not for this one.
   */
  method LoadOneTwice(page1: seq<Node>, page2: seq<Node>, table: seq<Rec>, col: Column, e: Edge) returns (out: Outcome)
    requires forall o :: o in page2 ==> o !in page1 && e !in o.one
    modifies page1, page2
    ensures out == Loaded
    ensures forall o :: o in page2 && o.Key(col).Some? && HasId(table, o.Key(col).value) ==>
              var answer := OneOrErr(o.one, {e}, e);
              && (answer == NotFound <==> AskedKeys(page1, col) != [] && o.Key(col).value !in AskedKeys(page1, col))
              && (answer != NotFound ==> answer.Found? && Some(answer.value) == LastWithId(table, o.Key(col).value))
  {
    var child := new Child<Rec>(lists => Success(AnswerById(table, lists)));
    out := LoadManyToOne(page1, col, e, child);
    ghost var first := child.lists;
    assert first == if AskedKeys(page1, col) == [] then [] else [AskedKeys(page1, col)];
    assert forall o :: o in page2 ==> e !in o.one;
    out := LoadManyToOne(page2, col, e, child);
    ghost var asked := AskedKeys(page2, col);
    AskedOnce(page2, col);
    if asked != [] {
      ghost var ns := AnswerById(table, child.lists);
      forall n | n in ns ensures KeyJudge(asked)(n) == Loaded {
        FilterMember(table, InAllById(child.lists), n);
        assert asked in child.lists;
      }
      LoadedExactlyWhen(ns, KeyJudge(asked));
      forall o | o in page2 && o.Key(col).Some? && HasId(table, o.Key(col).value)
        ensures LastWithId(ns, o.Key(col).value) ==
                if AskedKeys(page1, col) == [] || o.Key(col).value in AskedKeys(page1, col) then LastWithId(table, o.Key(col).value) else None
        ensures LastWithId(table, o.Key(col).value).Some?
      {
        LastInAnswer(table, child.lists, o.Key(col).value);
        LastWithIdFacts(table, o.Key(col).value);
        assert forall l :: l in child.lists <==> l in first || l == asked;
      }
    }
  }
}
