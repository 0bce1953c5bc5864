/**
 * The eager-loading joins that run after the main query: many-to-many (`loadGroups`),
 * many-to-one (`loadProxy`, `loadAccount`, `loadUser`) and one-to-many (`loadUsageLogs`,
 * `loadAccountGroups`, `loadChannels`, `loadAdoptionDecisions`).
 *
 * The generated loaders differ only in the foreign-key column they read and in the edge
 * their `init` and `assign` closures write, so both are parameters here. Neighbours are
 * records; parents are objects whose edges the loaders update in place.
 */
module EagerLoad {
  import opened Prelude

  /** Edges and foreign-key columns are numbered; the account query's own are named below. */
  type Edge = int
  type Column = int

  const GROUPS: Edge := 0
  const PROXY: Edge := 1
  const USAGE_LOGS: Edge := 2
  const ACCOUNT_GROUPS: Edge := 3

  const PROXY_ID: Column := 0
  const ACCOUNT_ID: Column := 1
  const GROUP_ID: Column := 2

  /** A row of another entity: its ID and its foreign keys (a missing one is NULL). */
  datatype Rec = Rec(id: int, fks: map<Column, int>) {
    function Key(col: Column): Option<int> { if col in fks then Some(fks[col]) else None }
  }

  /** A row of the many-to-many query: the parent's ID, then the neighbour. */
  datatype JoinRow = JoinRow(out: int, rec: Rec)

  datatype Outcome =
    | Loaded
    | QueryFailed(msg: string)
    | UnexpectedNode(id: int)   // a neighbour no key asked for
    | NilKey(id: int)           // a neighbour whose foreign key is NULL
    | NilParent                 // a nil parent is dereferenced: the program panics

  /** A parent entity of the main query, with the edges that were requested. */
  class Node {
    const id: int
    const fks: map<Column, int>
    const requested: set<Edge>
    var many: map<Edge, seq<Rec>>
    var one: map<Edge, Rec>

    constructor (id: int, fks: map<Column, int>, requested: set<Edge>)
      ensures this.id == id && this.fks == fks && this.requested == requested
      ensures many == map[] && one == map[]
    {
      this.id, this.fks, this.requested := id, fks, requested;
      many, one := map[], map[];
    }

    function Key(col: Column): Option<int> { if col in fks then Some(fks[col]) else None }
  }

  /**
   * The child builder stored under a With* edge. `Where` appends the ID list of the
   * current run; earlier lists stay, and `run` answers their conjunction.
   */
  class Child<T> {
    const run: seq<seq<int>> -> Result<seq<T>, string>
    var lists: seq<seq<int>>

    constructor (run: seq<seq<int>> -> Result<seq<T>, string>)
      ensures this.run == run && lists == []
    {
      this.run := run;
      lists := [];
    }
  }

  // ------------------------------------------------------------------ reference definitions

  /** The parent that `byID` or `nodeids` keeps for each ID: the last one with it. */
  ghost function Index(nodes: seq<Node>): map<int, Node> {
    if nodes == [] then map[]
    else Index(nodes[..|nodes| - 1])[nodes[|nodes| - 1].id := nodes[|nodes| - 1]]
  }

  lemma {:induction false} IndexFacts(nodes: seq<Node>)
    ensures forall id :: id in Index(nodes) ==> Index(nodes)[id] in nodes && Index(nodes)[id].id == id
    ensures forall o :: o in nodes ==> o.id in Index(nodes)
  {
    if nodes == [] {
    } else {
      IndexFacts(nodes[..|nodes| - 1]);
      assert nodes == nodes[..|nodes| - 1] + [nodes[|nodes| - 1]];
    }
  }

  /** `o` is the node its ID resolves to. */
  ghost predicate Resolved(nodes: seq<Node>, o: Node) {
    o.id in Index(nodes) && Index(nodes)[o.id] == o
  }

  function Ids(nodes: seq<Node>): seq<int> {
    seq(|nodes|, i requires 0 <= i < |nodes| => nodes[i].id)
  }

  predicate Paired(rows: seq<JoinRow>, out: int, id: int) {
    exists row :: row in rows && row.out == out && row.rec.id == id
  }

  function PairedWith(rows: seq<JoinRow>, out: int): Rec -> bool {
    (n: Rec) => Paired(rows, out, n.id)
  }

  function Owned(col: Column, id: int): Rec -> bool {
    (n: Rec) => n.Key(col) == Some(id)
  }

  predicate Scanned(rows: seq<JoinRow>, id: int) {
    exists row :: row in rows && row.rec.id == id
  }

  /** The neighbours in the order their first row came, one per ID. */
  function FirstSeen(rows: seq<JoinRow>): seq<Rec> {
    if rows == [] then []
    else
      var last := rows[|rows| - 1];
      var before := rows[..|rows| - 1];
      FirstSeen(before) + (if Scanned(before, last.rec.id) then [] else [last.rec])
  }

  /** The last record with this ID, which is the one later assignments leave in place. */
  function LastWithId(ns: seq<Rec>, id: int): Option<Rec> {
    if ns == [] then None
    else if ns[|ns| - 1].id == id then Some(ns[|ns| - 1])
    else LastWithId(ns[..|ns| - 1], id)
  }

  /** The answer of a stitching loop: the first neighbour that cannot be placed decides. */
  ghost function FirstFailure(ns: seq<Rec>, judge: Rec -> Outcome): Outcome {
    if ns == [] then Loaded
    else
      var before := FirstFailure(ns[..|ns| - 1], judge);
      if before != Loaded then before else judge(ns[|ns| - 1])
  }

  /** A failure on a prefix is the answer on the whole. */
  lemma {:induction false} FailureStops(ns: seq<Rec>, judge: Rec -> Outcome, i: nat)
    requires i <= |ns| && FirstFailure(ns[..i], judge) != Loaded
    ensures FirstFailure(ns, judge) == FirstFailure(ns[..i], judge)
  {
    if i == |ns| {
      assert ns[..i] == ns;
    } else {
      assert ns[..|ns| - 1][..i] == ns[..i];
      FailureStops(ns[..|ns| - 1], judge, i);
    }
  }

  /** Whether the many-to-many stitching can place a neighbour. */
  ghost function JoinJudge(rows: seq<JoinRow>, ids: set<int>): Rec -> Outcome {
    (n: Rec) =>
      if !Scanned(rows, n.id) then UnexpectedNode(n.id)
      else if exists row :: row in rows && row.rec.id == n.id && row.out !in ids then NilParent
      else Loaded
  }

  /** Whether the one-to-many stitching can place a neighbour. */
  function OwnerJudge(col: Column, ids: set<int>): Rec -> Outcome {
    (n: Rec) =>
      match n.Key(col)
      case None => NilKey(n.id)
      case Some(fk) => if fk in ids then Loaded else UnexpectedNode(n.id)
  }

  /** Whether the many-to-one stitching can place a neighbour. */
  function KeyJudge(keys: seq<int>): Rec -> Outcome {
    (n: Rec) => if n.id in keys then Loaded else UnexpectedNode(n.id)
  }

  ghost function StitchOutcome(ns: seq<Rec>, rows: seq<JoinRow>, ids: set<int>): Outcome {
    FirstFailure(ns, JoinJudge(rows, ids))
  }

  ghost function OwnerOutcome(ns: seq<Rec>, col: Column, ids: set<int>): Outcome {
    FirstFailure(ns, OwnerJudge(col, ids))
  }

  ghost function KeyOutcome(ns: seq<Rec>, keys: seq<int>): Outcome {
    FirstFailure(ns, KeyJudge(keys))
  }

  // ------------------------------------------------------------------ the loaders

  /** The ID list and the index a loader builds from its nodes. */
  method IndexNodes(nodes: seq<Node>) returns (ids: seq<int>, byID: map<int, Node>)
    ensures ids == Ids(nodes) && byID == Index(nodes)
    ensures |ids| == |nodes| && forall i :: 0 <= i < |nodes| ==> ids[i] == nodes[i].id
  {
    ids, byID := [], map[];
    for i := 0 to |nodes|
      invariant |ids| == i && forall j :: 0 <= j < i ==> ids[j] == nodes[j].id
      invariant byID == Index(nodes[..i])
    {
      assert nodes[..i + 1][..i] == nodes[..i];
      ids := ids + [nodes[i].id];
      byID := byID[nodes[i].id := nodes[i]];
    }
    assert nodes[..|nodes|] == nodes;
  }

  /** The `init` closure over all nodes. */
  method InitEdges(nodes: seq<Node>, e: Edge)
    modifies nodes
    ensures forall o :: o in nodes ==> o.many == old(o.many)[e := []] && o.one == old(o.one)
  {
    for i := 0 to |nodes|
      invariant forall o :: o in nodes ==> o.one == old(o.one)
      invariant forall j :: 0 <= j < i ==> nodes[j].many == old(nodes[j].many)[e := []]
      invariant forall o :: o in nodes && o !in nodes[..i] ==> o.many == old(o.many)
    {
      nodes[i].many := nodes[i].many[e := []];
    }
  }

  /** The `assign` closure over the parents of one neighbour, in whatever order the map yields them. */
  method AssignMany(parents: set<Node>, e: Edge, n: Rec)
    requires forall o :: o in parents ==> e in o.many
    modifies parents
    ensures forall o :: o in parents ==> o.many == old(o.many)[e := old(o.many)[e] + [n]] && o.one == old(o.one)
  {
    var left := parents;
    while left != {}
      invariant left <= parents
      invariant forall o :: o in parents ==> o.one == old(o.one)
      invariant forall o :: o in left ==> o.many == old(o.many)
      invariant forall o :: o in parents - left ==> o.many == old(o.many)[e := old(o.many)[e] + [n]]
    {
      var kn :| kn in left;
      kn.many := kn.many[e := kn.many[e] + [n]];
      left := left - {kn};
    }
  }

  function Lookup(byID: map<int, Node>, id: int): Node? {
    if id in byID then byID[id] else null
  }

  /** The parents recorded for neighbour `id`; an ID no parent has contributes nil. */
  ghost function Holders(rows: seq<JoinRow>, byID: map<int, Node>, id: int): set<Node?> {
    set row | row in rows && row.rec.id == id :: Lookup(byID, row.out)
  }

  lemma HoldersSnoc(rows: seq<JoinRow>, byID: map<int, Node>, id: int, i: nat)
    requires i < |rows|
    ensures Holders(rows[..i + 1], byID, id) ==
            Holders(rows[..i], byID, id) + (if rows[i].rec.id == id then {Lookup(byID, rows[i].out)} else {})
    ensures Scanned(rows[..i + 1], id) <==> Scanned(rows[..i], id) || rows[i].rec.id == id
  {
  }

  /** `nids` holds, for every neighbour of the rows and no other, the parents its rows name. */
  ghost predicate Recorded(rows: seq<JoinRow>, byID: map<int, Node>, nids: map<int, set<Node?>>) {
    && (forall id :: id in nids <==> Scanned(rows, id))
    && (forall id :: id in nids ==> nids[id] == Holders(rows, byID, id))
  }

  lemma RecordedStep(rows: seq<JoinRow>, byID: map<int, Node>, nids: map<int, set<Node?>>, i: nat)
    requires i < |rows| && Recorded(rows[..i], byID, nids)
    ensures var id, parent := rows[i].rec.id, Lookup(byID, rows[i].out);
            Recorded(rows[..i + 1], byID, nids[id := if id in nids then nids[id] + {parent} else {parent}])
  {
    forall id ensures Holders(rows[..i + 1], byID, id) ==
          Holders(rows[..i], byID, id) + (if rows[i].rec.id == id then {Lookup(byID, rows[i].out)} else {})
        && (Scanned(rows[..i + 1], id) <==> Scanned(rows[..i], id) || rows[i].rec.id == id) {
      HoldersSnoc(rows, byID, id, i);
    }
    if !Scanned(rows[..i], rows[i].rec.id) {
      assert Holders(rows[..i], byID, rows[i].rec.id) == {};
    }
  }

  lemma FirstSeenSnoc(rows: seq<JoinRow>, i: nat)
    requires i < |rows|
    ensures FirstSeen(rows[..i + 1]) == FirstSeen(rows[..i]) + (if Scanned(rows[..i], rows[i].rec.id) then [] else [rows[i].rec])
  {
    assert rows[..i + 1][..i] == rows[..i];
  }

  /** The rewritten row scanner: remember every pair, keep the neighbour of the first row only. */
  method ScanJoin(rows: seq<JoinRow>, byID: map<int, Node>) returns (nids: map<int, set<Node?>>, found: seq<Rec>)
    ensures found == FirstSeen(rows) && Recorded(rows, byID, nids)
  {
    nids, found := map[], [];
    for i := 0 to |rows|
      invariant found == FirstSeen(rows[..i]) && Recorded(rows[..i], byID, nids)
    {
      var row := rows[i];
      RecordedStep(rows, byID, nids, i);
      FirstSeenSnoc(rows, i);
      if row.rec.id !in nids {
        nids := nids[row.rec.id := {Lookup(byID, row.out)}];
        found := found + [row.rec];
      } else {
        nids := nids[row.rec.id := nids[row.rec.id] + {Lookup(byID, row.out)}];
      }
    }
    assert rows[..|rows|] == rows;
  }

  lemma UpdateTwice<K, V>(m: map<K, V>, k: K, a: V, b: V)
    ensures m[k := a][k := b] == m[k := b]
  {
  }

  ghost function IdSet(nodes: seq<Node>): set<int> {
    set o | o in nodes :: o.id
  }

  /** The neighbours of `o` after the neighbours `ns` were stitched in. */
  ghost function JoinEdge(nodes: seq<Node>, o: Node, ns: seq<Rec>, rows: seq<JoinRow>): seq<Rec> {
    if Resolved(nodes, o) then Filter(ns, PairedWith(rows, o.id)) else []
  }

  lemma JoinEdgeSnoc(nodes: seq<Node>, o: Node, ns: seq<Rec>, rows: seq<JoinRow>, i: nat)
    requires i < |ns|
    ensures JoinEdge(nodes, o, ns[..i + 1], rows) ==
            if Resolved(nodes, o) && Paired(rows, o.id, ns[i].id) then JoinEdge(nodes, o, ns[..i], rows) + [ns[i]]
            else JoinEdge(nodes, o, ns[..i], rows)
  {
    FilterSnoc(ns, PairedWith(rows, o.id), i);
  }

  lemma HoldersAreJoined(nodes: seq<Node>, rows: seq<JoinRow>, id: int, o: Node)
    ensures o in Holders(rows, Index(nodes), id) <==> Resolved(nodes, o) && Paired(rows, o.id, id)
    ensures o in Holders(rows, Index(nodes), id) ==> o in nodes
  {
    IndexFacts(nodes);
  }

  lemma HoldersOfNil(nodes: seq<Node>, rows: seq<JoinRow>, id: int)
    ensures null in Holders(rows, Index(nodes), id) <==>
            exists row :: row in rows && row.rec.id == id && row.out !in IdSet(nodes)
  {
    IndexFacts(nodes);
    assert forall x :: x in Index(nodes) <==> x in IdSet(nodes);
  }

  /** Hands neighbour `n` to all its parents; `nids` is what the row scanner recorded. */
  method StitchOne(nodes: seq<Node>, e: Edge, rows: seq<JoinRow>, nids: map<int, set<Node?>>, n: Rec) returns (out: Outcome)
    requires forall id :: id in nids <==> Scanned(rows, id)
    requires forall id :: id in nids ==> nids[id] == Holders(rows, Index(nodes), id)
    requires forall o :: o in nodes ==> e in o.many
    modifies nodes
    ensures out == if !Scanned(rows, n.id) then UnexpectedNode(n.id)
                   else if exists row :: row in rows && row.rec.id == n.id && row.out !in IdSet(nodes) then NilParent
                   else Loaded
    ensures out == Loaded ==> forall o :: o in nodes ==>
              o.many == if Resolved(nodes, o) && Paired(rows, o.id, n.id) then old(o.many)[e := old(o.many)[e] + [n]] else old(o.many)
    ensures forall o :: o in nodes ==> o.one == old(o.one)
  {
    HoldersOfNil(nodes, rows, n.id);
    if n.id !in nids {
      return UnexpectedNode(n.id);
    }
    if null in nids[n.id] {
      return NilParent;
    }
    var parents: set<Node> := set o: Node | o in nids[n.id];
    forall o: Node ensures o in parents <==> Resolved(nodes, o) && Paired(rows, o.id, n.id)
                   ensures o in parents ==> o in nodes {
      HoldersAreJoined(nodes, rows, n.id, o);
    }
    AssignMany(parents, e, n);
    return Loaded;
  }

  method StitchJoin(nodes: seq<Node>, e: Edge, rows: seq<JoinRow>, nids: map<int, set<Node?>>, ns: seq<Rec>) returns (out: Outcome)
    requires forall id :: id in nids <==> Scanned(rows, id)
    requires forall id :: id in nids ==> nids[id] == Holders(rows, Index(nodes), id)
    requires forall o :: o in nodes ==> e in o.many && o.many[e] == []
    modifies nodes
    ensures out == StitchOutcome(ns, rows, IdSet(nodes))
    ensures out == Loaded ==> forall o :: o in nodes ==> o.many == old(o.many)[e := JoinEdge(nodes, o, ns, rows)]
    ensures forall o :: o in nodes ==> o.one == old(o.one)
  {
    out := Loaded;
    for i := 0 to |ns|
      invariant out == Loaded && StitchOutcome(ns[..i], rows, IdSet(nodes)) == Loaded
      invariant forall o :: o in nodes ==> o.one == old(o.one)
      invariant forall o :: o in nodes ==> o.many == old(o.many)[e := JoinEdge(nodes, o, ns[..i], rows)]
    {
      assert ns[..i + 1][..i] == ns[..i];
      label Before:
      out := StitchOne(nodes, e, rows, nids, ns[i]);
      if out != Loaded {
        FailureStops(ns, JoinJudge(rows, IdSet(nodes)), i + 1);
        return;
      }
      forall o | o in nodes ensures o.many == old(o.many)[e := JoinEdge(nodes, o, ns[..i + 1], rows)] {
        JoinEdgeSnoc(nodes, o, ns, rows, i);
        var before := JoinEdge(nodes, o, ns[..i], rows);
        assert old@Before(o.many) == old(o.many)[e := before];
        UpdateTwice(old(o.many), e, before, before + [ns[i]]);
      }
    }
    assert ns[..|ns|] == ns;
  }

  /**
   * `loadGroups`: the many-to-many join. `intercept` stands for the interceptors around
   * the second query, which may reorder, drop, repeat or add neighbours.
   */
  method LoadManyToMany(nodes: seq<Node>, e: Edge, child: Child<JoinRow>, intercept: seq<Rec> -> Result<seq<Rec>, string>)
    returns (out: Outcome)
    modifies nodes, child
    ensures child.lists == old(child.lists) + [Ids(nodes)]
    ensures out == JoinAnswer(nodes, child.run(child.lists), intercept)
    ensures match child.run(child.lists)
            case Failure(e) => out == QueryFailed(e)
            case Success(rows) => intercept(FirstSeen(rows)).Failure? ==> out == QueryFailed(intercept(FirstSeen(rows)).error)
    ensures out == Loaded ==>
              var rows := child.run(child.lists).value;
              var ns := intercept(FirstSeen(rows)).value;
              forall o :: o in nodes ==> o.many == old(o.many)[e := JoinEdge(nodes, o, ns, rows)]
    ensures forall o :: o in nodes ==> o.one == old(o.one)
  {
    var ids, byID := IndexNodes(nodes);
    InitEdges(nodes, e);
    child.lists := child.lists + [ids];
    var answer := child.run(child.lists);
    if answer.Failure? {
      return QueryFailed(answer.error);
    }
    var nids, found := ScanJoin(answer.value, byID);
    var neighbours := intercept(found);
    if neighbours.Failure? {
      return QueryFailed(neighbours.error);
    }
    out := StitchJoin(nodes, e, answer.value, nids, neighbours.value);
  }

  ghost function JoinAnswer(nodes: seq<Node>, answer: Result<seq<JoinRow>, string>, intercept: seq<Rec> -> Result<seq<Rec>, string>): (out: Outcome)
    ensures out == Loaded ==> answer.Success? && intercept(FirstSeen(answer.value)).Success?
  {
    if answer.Failure? then QueryFailed(answer.error)
    else
      var neighbours := intercept(FirstSeen(answer.value));
      if neighbours.Failure? then QueryFailed(neighbours.error)
      else StitchOutcome(neighbours.value, answer.value, IdSet(nodes))
  }

  // ------------------------------------------------------------------ one-to-many

  ghost function OwnerEdge(nodes: seq<Node>, o: Node, ns: seq<Rec>, col: Column): seq<Rec> {
    if Resolved(nodes, o) then Filter(ns, Owned(col, o.id)) else []
  }

  lemma OwnerEdgeSnoc(nodes: seq<Node>, o: Node, ns: seq<Rec>, col: Column, i: nat)
    requires i < |ns|
    ensures OwnerEdge(nodes, o, ns[..i + 1], col) ==
            if Resolved(nodes, o) && ns[i].Key(col) == Some(o.id) then OwnerEdge(nodes, o, ns[..i], col) + [ns[i]]
            else OwnerEdge(nodes, o, ns[..i], col)
  {
    FilterSnoc(ns, Owned(col, o.id), i);
  }

  ghost function OwnedAnswer(nodes: seq<Node>, answer: Result<seq<Rec>, string>, col: Column): (out: Outcome)
    ensures out == Loaded ==> answer.Success?
  {
    if answer.Failure? then QueryFailed(answer.error) else OwnerOutcome(answer.value, col, IdSet(nodes))
  }

  /** `loadUsageLogs` and its siblings; `col` is the neighbours' foreign key to the parents. */
  method LoadOneToMany(nodes: seq<Node>, col: Column, e: Edge, child: Child<Rec>) returns (out: Outcome)
    modifies nodes, child
    ensures child.lists == old(child.lists) + [Ids(nodes)]
    ensures out == OwnedAnswer(nodes, child.run(child.lists), col)
    ensures child.run(child.lists).Failure? ==> out == QueryFailed(child.run(child.lists).error)
    ensures out == Loaded ==>
              forall o :: o in nodes ==> o.many == old(o.many)[e := OwnerEdge(nodes, o, child.run(child.lists).value, col)]
    ensures forall o :: o in nodes ==> o.one == old(o.one)
  {
    var ids, byID := IndexNodes(nodes);
    InitEdges(nodes, e);
    child.lists := child.lists + [ids];
    var answer := child.run(child.lists);
    if answer.Failure? {
      return QueryFailed(answer.error);
    }
    out := StitchOwned(nodes, col, e, byID, answer.value);
  }

  /** Appends neighbour `n` to the list of the parent its key names. */
  method OwnOne(nodes: seq<Node>, col: Column, e: Edge, byID: map<int, Node>, n: Rec) returns (out: Outcome)
    requires byID == Index(nodes)
    requires forall o :: o in nodes ==> e in o.many
    modifies nodes
    ensures out == match n.Key(col)
                   case None => NilKey(n.id)
                   case Some(fk) => if fk in IdSet(nodes) then Loaded else UnexpectedNode(n.id)
    ensures out == Loaded ==> forall o :: o in nodes ==>
              o.many == if Resolved(nodes, o) && n.Key(col) == Some(o.id) then old(o.many)[e := old(o.many)[e] + [n]] else old(o.many)
    ensures forall o :: o in nodes ==> o.one == old(o.one)
  {
    IndexFacts(nodes);
    assert forall x :: x in byID <==> x in IdSet(nodes);
    var fk := n.Key(col);
    if fk.None? {
      return NilKey(n.id);
    }
    if fk.value !in byID {
      return UnexpectedNode(n.id);
    }
    var node := byID[fk.value];
    node.many := node.many[e := node.many[e] + [n]];
    return Loaded;
  }

  method StitchOwned(nodes: seq<Node>, col: Column, e: Edge, byID: map<int, Node>, ns: seq<Rec>) returns (out: Outcome)
    requires byID == Index(nodes)
    requires forall o :: o in nodes ==> e in o.many && o.many[e] == []
    modifies nodes
    ensures out == OwnerOutcome(ns, col, IdSet(nodes))
    ensures out == Loaded ==> forall o :: o in nodes ==> o.many == old(o.many)[e := OwnerEdge(nodes, o, ns, col)]
    ensures forall o :: o in nodes ==> o.one == old(o.one)
  {
    out := Loaded;
    for i := 0 to |ns|
      invariant out == Loaded && OwnerOutcome(ns[..i], col, IdSet(nodes)) == Loaded
      invariant forall o :: o in nodes ==> o.one == old(o.one)
      invariant forall o :: o in nodes ==> o.many == old(o.many)[e := OwnerEdge(nodes, o, ns[..i], col)]
    {
      assert ns[..i + 1][..i] == ns[..i];
      label Before:
      out := OwnOne(nodes, col, e, byID, ns[i]);
      if out != Loaded {
        FailureStops(ns, OwnerJudge(col, IdSet(nodes)), i + 1);
        return;
      }
      forall o | o in nodes ensures o.many == old(o.many)[e := OwnerEdge(nodes, o, ns[..i + 1], col)] {
        OwnerEdgeSnoc(nodes, o, ns, col, i);
        var before := OwnerEdge(nodes, o, ns[..i], col);
        assert old@Before(o.many) == old(o.many)[e := before];
        UpdateTwice(old(o.many), e, before, before + [ns[i]]);
      }
    }
    assert ns[..|ns|] == ns;
  }

  // ------------------------------------------------------------------ many-to-one

  /** The distinct non-NULL keys of the nodes, in order of first appearance. */
  function AskedKeys(nodes: seq<Node>, col: Column): seq<int> {
    if nodes == [] then []
    else
      var before := AskedKeys(nodes[..|nodes| - 1], col);
      var key := nodes[|nodes| - 1].Key(col);
      if key.None? || key.value in before then before else before + [key.value]
  }

  /** The single-valued edges of a node with key `key` after the neighbours `ns` were stitched in. */
  ghost function OneEdge(one: map<Edge, Rec>, e: Edge, key: Option<int>, ns: seq<Rec>): map<Edge, Rec> {
    if key.Some? && LastWithId(ns, key.value).Some? then one[e := LastWithId(ns, key.value).value] else one
  }

  /** Groups the nodes by key, as the first loop of a many-to-one loader does. */
  method GroupByKey(nodes: seq<Node>, col: Column) returns (ids: seq<int>, nodeids: map<int, seq<Node>>)
    ensures ids == AskedKeys(nodes, col)
    ensures forall k :: k in nodeids <==> k in ids
    ensures forall k :: k in nodeids ==> forall o :: o in nodeids[k] <==> o in nodes && o.Key(col) == Some(k)
    ensures forall o :: o in nodes && o.Key(col).Some? ==> o.Key(col).value in ids
  {
    ids, nodeids := [], map[];
    for i := 0 to |nodes|
      invariant ids == AskedKeys(nodes[..i], col)
      invariant forall k :: k in nodeids <==> k in ids
      invariant forall k :: k in nodeids ==> forall o :: o in nodeids[k] <==> o in nodes[..i] && o.Key(col) == Some(k)
      invariant forall o :: o in nodes[..i] && o.Key(col).Some? ==> o.Key(col).value in ids
    {
      assert nodes[..i + 1] == nodes[..i] + [nodes[i]];
      var key := nodes[i].Key(col);
      if key.Some? {
        var fk := key.value;
        if fk !in nodeids {
          ids := ids + [fk];
          nodeids := nodeids[fk := [nodes[i]]];
        } else {
          nodeids := nodeids[fk := nodeids[fk] + [nodes[i]]];
        }
      }
    }
    assert nodes[..|nodes|] == nodes;
  }

  method AssignOne(parents: seq<Node>, e: Edge, n: Rec)
    modifies parents
    ensures forall o :: o in parents ==> o.one == old(o.one)[e := n] && o.many == old(o.many)
  {
    for i := 0 to |parents|
      invariant forall j :: 0 <= j < i ==> parents[j].one == old(parents[j].one)[e := n]
      invariant forall o :: o in parents && o !in parents[..i] ==> o.one == old(o.one)
      invariant forall o :: o in parents ==> o.many == old(o.many)
    {
      parents[i].one := parents[i].one[e := n];
    }
  }

  ghost function KeyedAnswer(nodes: seq<Node>, answer: Result<seq<Rec>, string>, col: Column): (out: Outcome)
    ensures out == Loaded ==> answer.Success?
  {
    if answer.Failure? then QueryFailed(answer.error) else KeyOutcome(answer.value, AskedKeys(nodes, col))
  }

  /** `loadProxy` and its siblings; `col` is the nodes' own foreign key. No key means no query. */
  method LoadManyToOne(nodes: seq<Node>, col: Column, e: Edge, child: Child<Rec>) returns (out: Outcome)
    modifies nodes, child
    ensures child.lists == old(child.lists) + (if AskedKeys(nodes, col) == [] then [] else [AskedKeys(nodes, col)])
    ensures AskedKeys(nodes, col) == [] ==> out == Loaded && forall o :: o in nodes ==> o.one == old(o.one)
    ensures AskedKeys(nodes, col) != [] ==>
              var answer := child.run(child.lists);
              && out == KeyedAnswer(nodes, answer, col) && (answer.Failure? ==> out == QueryFailed(answer.error))
              && (out == Loaded ==> forall o :: o in nodes ==> o.one == OneEdge(old(o.one), e, o.Key(col), answer.value))
    ensures forall o :: o in nodes ==> o.many == old(o.many)
  {
    var ids, nodeids := GroupByKey(nodes, col);
    if |ids| == 0 {
      return Loaded;
    }
    child.lists := child.lists + [ids];
    var answer := child.run(child.lists);
    if answer.Failure? {
      return QueryFailed(answer.error);
    }
    out := StitchKeyed(nodes, col, e, ids, nodeids, answer.value);
  }

  method StitchKeyed(nodes: seq<Node>, col: Column, e: Edge, ghost ids: seq<int>, nodeids: map<int, seq<Node>>, ns: seq<Rec>)
    returns (out: Outcome)
    requires forall k :: k in nodeids <==> k in ids
    requires forall k :: k in nodeids ==> forall o :: o in nodeids[k] <==> o in nodes && o.Key(col) == Some(k)
    modifies nodes
    ensures out == KeyOutcome(ns, ids)
    ensures out == Loaded ==> forall o :: o in nodes ==> o.one == OneEdge(old(o.one), e, o.Key(col), ns)
    ensures forall o :: o in nodes ==> o.many == old(o.many)
  {
    for i := 0 to |ns|
      invariant KeyOutcome(ns[..i], ids) == Loaded
      invariant forall o :: o in nodes ==> o.many == old(o.many)
      invariant forall o :: o in nodes ==> o.one == OneEdge(old(o.one), e, o.Key(col), ns[..i])
    {
      var n := ns[i];
      assert ns[..i + 1][..i] == ns[..i];
      if n.id !in nodeids {
        FailureStops(ns, KeyJudge(ids), i + 1);
        return UnexpectedNode(n.id);
      }
      assert forall j :: 0 <= j < |nodeids[n.id]| ==> nodeids[n.id][j] in nodeids[n.id];
      AssignOne(nodeids[n.id], e, n);
    }
    assert ns[..|ns|] == ns;
    return Loaded;
  }

  // ------------------------------------------------------------------ all edges of an account query

  datatype EdgeAnswer<T> = Found(value: T) | NotFound | NotLoaded

  /** `ProxyOrErr`. */
  function OneOrErr(one: map<Edge, Rec>, requested: set<Edge>, e: Edge): EdgeAnswer<Rec> {
    if e in one then Found(one[e]) else if e in requested then NotFound else NotLoaded
  }

  /** Edge `e` of `o` is the many-to-many join over the answer of `child`. */
  ghost predicate HoldsJoin(nodes: seq<Node>, o: Node, e: Edge, child: Child<JoinRow>, intercept: seq<Rec> -> Result<seq<Rec>, string>)
    reads o, child
  {
    var answer := child.run(child.lists);
    && answer.Success? && intercept(FirstSeen(answer.value)).Success?
    && e in o.many && o.many[e] == JoinEdge(nodes, o, intercept(FirstSeen(answer.value)).value, answer.value)
  }

  /** Edge `e` of `o` is the one-to-many join over the answer of `child`. */
  ghost predicate HoldsOwned(nodes: seq<Node>, o: Node, e: Edge, col: Column, child: Child<Rec>)
    reads o, child
  {
    var answer := child.run(child.lists);
    answer.Success? && e in o.many && o.many[e] == OwnerEdge(nodes, o, answer.value, col)
  }

  ghost predicate SameExcept(m: map<Edge, seq<Rec>>, m': map<Edge, seq<Rec>>, es: set<Edge>) {
    forall e :: e !in es ==> (e in m <==> e in m') && (e in m ==> m[e] == m'[e])
  }

  ghost function Then(first: Outcome, second: Outcome): Outcome {
    if first != Loaded then first else second
  }

  /** How the many-to-many edge will end, if it is requested. */
  ghost function JoinOutcome(nodes: seq<Node>, child: Child?<JoinRow>, intercept: seq<Rec> -> Result<seq<Rec>, string>): Outcome
    reads child
  {
    if child == null then Loaded else JoinAnswer(nodes, child.run(child.lists + [Ids(nodes)]), intercept)
  }

  /** How a one-to-many edge will end, if it is requested. */
  ghost function OwnedOutcome(nodes: seq<Node>, child: Child?<Rec>): Outcome
    reads child
  {
    if child == null then Loaded else OwnedAnswer(nodes, child.run(child.lists + [Ids(nodes)]), ACCOUNT_ID)
  }

  /** How the proxy edge will end, if it is requested. */
  ghost function ProxyOutcome(nodes: seq<Node>, child: Child?<Rec>): Outcome
    reads child
  {
    if child == null || AskedKeys(nodes, PROXY_ID) == [] then Loaded
    else KeyedAnswer(nodes, child.run(child.lists + [AskedKeys(nodes, PROXY_ID)]), PROXY_ID)
  }

  /** What the proxy loader asks: its keys, or nothing. */
  function ProxyLists(nodes: seq<Node>): seq<seq<int>> {
    if AskedKeys(nodes, PROXY_ID) == [] then [] else [AskedKeys(nodes, PROXY_ID)]
  }

  /** The ID list asked by a loader that runs only if nothing failed before it. */
  function IdsIf(ran: bool, nodes: seq<Node>): seq<seq<int>> {
    if ran then [Ids(nodes)] else []
  }

  /** The two one-to-many edges of `sqlAll`. */
  method LoadLists(nodes: seq<Node>, usageLogs: Child?<Rec>, accountGroups: Child?<Rec>) returns (out: Outcome)
    requires usageLogs == null || usageLogs != accountGroups
    modifies nodes, usageLogs, accountGroups
    ensures out == Then(old(OwnedOutcome(nodes, usageLogs)), old(OwnedOutcome(nodes, accountGroups)))
    ensures usageLogs != null ==> usageLogs.lists == old(usageLogs.lists) + [Ids(nodes)]
    ensures accountGroups != null ==>
              accountGroups.lists == old(accountGroups.lists) + IdsIf(old(OwnedOutcome(nodes, usageLogs)) == Loaded, nodes)
    ensures out == Loaded ==> forall o :: o in nodes ==>
              && (usageLogs != null ==> HoldsOwned(nodes, o, USAGE_LOGS, ACCOUNT_ID, usageLogs))
              && (accountGroups != null ==> HoldsOwned(nodes, o, ACCOUNT_GROUPS, ACCOUNT_ID, accountGroups))
              && SameExcept(old(o.many), o.many, {USAGE_LOGS, ACCOUNT_GROUPS})
    ensures forall o :: o in nodes ==> o.one == old(o.one)
  {
    out := Loaded;
    if usageLogs != null {
      out := LoadOneToMany(nodes, ACCOUNT_ID, USAGE_LOGS, usageLogs);
      if out != Loaded { return; }
    }
    if accountGroups != null {
      out := LoadOneToMany(nodes, ACCOUNT_ID, ACCOUNT_GROUPS, accountGroups);
    }
  }

  /** Every node's proxy edge is what the many-to-one join leaves of `one`. */
  ghost predicate HoldsProxy(nodes: seq<Node>, o: Node, one: map<Edge, Rec>, child: Child?<Rec>)
    reads o, child
  {
    if child == null || AskedKeys(nodes, PROXY_ID) == [] then o.one == one
    else
      var answer := child.run(child.lists);
      answer.Success? && o.one == OneEdge(one, PROXY, o.Key(PROXY_ID), answer.value)
  }

  /** The many-to-many and the many-to-one edge of `sqlAll`. */
  method LoadGroupsAndProxy(nodes: seq<Node>, groups: Child?<JoinRow>, proxy: Child?<Rec>, intercept: seq<Rec> -> Result<seq<Rec>, string>)
    returns (out: Outcome)
    modifies nodes, groups, proxy
    ensures out == Then(old(JoinOutcome(nodes, groups, intercept)), old(ProxyOutcome(nodes, proxy)))
    ensures groups != null ==> groups.lists == old(groups.lists) + [Ids(nodes)]
    ensures proxy != null ==>
              proxy.lists == old(proxy.lists) + (if old(JoinOutcome(nodes, groups, intercept)) == Loaded then ProxyLists(nodes) else [])
    ensures out == Loaded ==> forall o :: o in nodes ==>
              && (groups != null ==> HoldsJoin(nodes, o, GROUPS, groups, intercept))
              && HoldsProxy(nodes, o, old(o.one), proxy)
              && SameExcept(old(o.many), o.many, {GROUPS})
  {
    out := Loaded;
    if groups != null {
      out := LoadManyToMany(nodes, GROUPS, groups, intercept);
      if out != Loaded { return; }
    }
    if proxy != null {
      out := LoadManyToOne(nodes, PROXY_ID, PROXY, proxy);
    }
  }

  lemma SameTwice(a: map<Edge, seq<Rec>>, b: map<Edge, seq<Rec>>, c: map<Edge, seq<Rec>>, es: set<Edge>, fs: set<Edge>)
    requires SameExcept(a, b, es) && SameExcept(b, c, fs)
    ensures SameExcept(a, c, es + fs)
  {
  }

  /**
   * The part of `sqlAll` after the main query: each requested edge in turn, stopping at the
   * first failure. Without nodes nothing is asked.
   */
  method LoadEdges(nodes: seq<Node>, groups: Child?<JoinRow>, proxy: Child?<Rec>, usageLogs: Child?<Rec>, accountGroups: Child?<Rec>,
                   intercept: seq<Rec> -> Result<seq<Rec>, string>) returns (out: Outcome)
    requires proxy == null || (proxy != usageLogs && proxy != accountGroups)
    requires usageLogs == null || usageLogs != accountGroups
    modifies nodes, groups, proxy, usageLogs, accountGroups
    ensures var early := old(Then(JoinOutcome(nodes, groups, intercept), ProxyOutcome(nodes, proxy)));
            && out == (if nodes == [] then Loaded
                       else Then(early, old(Then(OwnedOutcome(nodes, usageLogs), OwnedOutcome(nodes, accountGroups)))))
            && (groups != null ==> groups.lists == old(groups.lists) + IdsIf(nodes != [], nodes))
            && (proxy != null ==>
                  proxy.lists == old(proxy.lists) +
                    (if nodes != [] && old(JoinOutcome(nodes, groups, intercept)) == Loaded then ProxyLists(nodes) else []))
            && (usageLogs != null ==> usageLogs.lists == old(usageLogs.lists) + IdsIf(nodes != [] && early == Loaded, nodes))
            && (accountGroups != null ==>
                  accountGroups.lists == old(accountGroups.lists) +
                    IdsIf(nodes != [] && early == Loaded && old(OwnedOutcome(nodes, usageLogs)) == Loaded, nodes))
    ensures out == Loaded && nodes != [] ==>
      forall o :: o in nodes ==>
        && (groups != null ==> HoldsJoin(nodes, o, GROUPS, groups, intercept))
        && (usageLogs != null ==> HoldsOwned(nodes, o, USAGE_LOGS, ACCOUNT_ID, usageLogs))
        && (accountGroups != null ==> HoldsOwned(nodes, o, ACCOUNT_GROUPS, ACCOUNT_ID, accountGroups))
        && HoldsProxy(nodes, o, old(o.one), proxy)
    ensures out == Loaded ==> forall o :: o in nodes ==>
              SameExcept(old(o.many), o.many, {GROUPS, USAGE_LOGS, ACCOUNT_GROUPS})
  {
    if nodes == [] {
      return Loaded;
    }
    out := LoadGroupsAndProxy(nodes, groups, proxy, intercept);
    if out != Loaded { return; }
    assert OwnedOutcome(nodes, usageLogs) == old(OwnedOutcome(nodes, usageLogs));
    assert OwnedOutcome(nodes, accountGroups) == old(OwnedOutcome(nodes, accountGroups));
    label Listed:
    out := LoadLists(nodes, usageLogs, accountGroups);
    if out == Loaded {
      forall o | o in nodes
        ensures groups != null ==> HoldsJoin(nodes, o, GROUPS, groups, intercept)
        ensures HoldsProxy(nodes, o, old(o.one), proxy)
        ensures SameExcept(old(o.many), o.many, {GROUPS, USAGE_LOGS, ACCOUNT_GROUPS})
      {
        assert GROUPS !in {USAGE_LOGS, ACCOUNT_GROUPS};
        SameTwice(old(o.many), old@Listed(o.many), o.many, {GROUPS}, {USAGE_LOGS, ACCOUNT_GROUPS});
      }
    }
  }
}
