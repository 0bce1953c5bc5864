/**
 * Which columns a query fetches: `Select` lists, the ID and foreign keys that `querySpec`
 * adds, and the foreign key that a one-to-many loader appends to its child. Loaded edges
 * do not depend on what the caller selected, with one exception that is stated exactly.
 */
module ColumnSelection {
  import opened Prelude
  import opened EagerLoad

  // ------------------------------------------------------------------ the columns of a query

  /** `AddColumnOnce` and `AppendFieldOnce`. */
  function AddOnce(columns: seq<Column>, c: Column): seq<Column> {
    if c in columns then columns else columns + [c]
  }

  function AddAll(columns: seq<Column>, needed: seq<Column>): seq<Column> {
    if needed == [] then columns else AddOnce(AddAll(columns, needed[..|needed| - 1]), needed[|needed| - 1])
  }

  function Without(fields: seq<Column>, id: Column): seq<Column> {
    Filter(fields, (f: Column) => f != id)
  }

  /** What an entity's query fetches: its table's columns, its ID column if it has one. */
  datatype Entity = Entity(all: seq<Column>, id: Option<Column>)

  /** `querySpec`: all columns without a selection; else the ID, the selected fields and the foreign keys `needed` by edges. */
  function QueryColumns(entity: Entity, fields: seq<Column>, needed: seq<Column>): seq<Column> {
    if fields == [] then entity.all
    else AddAll(if entity.id.Some? then [entity.id.value] + Without(fields, entity.id.value) else fields, needed)
  }

  method QuerySpecColumns(entity: Entity, fields: seq<Column>, needed: seq<Column>) returns (columns: seq<Column>)
    ensures columns == QueryColumns(entity, fields, needed)
  {
    columns := entity.all;
    if |fields| > 0 {
      if entity.id.Some? {
        var rest: seq<Column> := [];
        for i := 0 to |fields|
          invariant rest == Without(fields[..i], entity.id.value)
        {
          FilterSnoc(fields, (f: Column) => f != entity.id.value, i);
          if fields[i] != entity.id.value {
            rest := rest + [fields[i]];
          }
        }
        assert fields[..|fields|] == fields;
        columns := [entity.id.value] + rest;
      } else {
        columns := fields;
      }
      ghost var base := columns;
      for i := 0 to |needed|
        invariant columns == AddAll(base, needed[..i])
      {
        assert needed[..i + 1][..i] == needed[..i];
        if needed[i] !in columns {
          columns := columns + [needed[i]];
        }
      }
      assert needed[..|needed|] == needed;
    }
  }

  /** `all` starts with `columns`; what follows is new, and each of it comes once. */
  ghost predicate AppendsOnce(columns: seq<Column>, all: seq<Column>) {
    columns <= all && Distinct(all[|columns|..]) && forall c :: c in all[|columns|..] ==> c !in columns
  }

  lemma {:induction false} AddAllHas(columns: seq<Column>, needed: seq<Column>)
    ensures forall c :: c in AddAll(columns, needed) <==> c in columns || c in needed
    ensures AppendsOnce(columns, AddAll(columns, needed))
  {
    if needed == [] {
    } else {
      var before, last := AddAll(columns, needed[..|needed| - 1]), needed[|needed| - 1];
      AddAllHas(columns, needed[..|needed| - 1]);
      assert needed == needed[..|needed| - 1] + [last];
      if last !in before {
        assert (before + [last])[|columns|..] == before[|columns|..] + [last];
      }
    }
  }

  /**
   * Without a selection the query fetches the whole table. A selection fetches exactly the ID,
   * first and once, the selected fields in their order, and then the needed keys that are not
   * among them, each once.
   */
  lemma QueryColumnsAre(entity: Entity, fields: seq<Column>, needed: seq<Column>)
    ensures var columns := QueryColumns(entity, fields, needed);
            if fields == [] then columns == entity.all
            else
              && (forall c :: c in columns <==> c in fields || c in needed || Some(c) == entity.id)
              && match entity.id
                 case None => AppendsOnce(fields, columns)
                 case Some(id) => AppendsOnce([id] + Filter(fields, (f: Column) => f != id), columns) && columns[0] == id && id !in columns[1..]
  {
    if fields != [] && entity.id.Some? {
      var id := entity.id.value;
      var base := [id] + Without(fields, id);
      AddAllHas(base, needed);
      forall c ensures c in Without(fields, id) <==> c in fields && c != id {
        FilterMember(fields, (f: Column) => f != id, c);
      }
      var columns := AddAll(base, needed);
      assert columns == base + columns[|base|..];
      assert columns[1..] == Without(fields, id) + columns[|base|..];
    } else if fields != [] {
      AddAllHas(fields, needed);
    }
  }

  // ------------------------------------------------------------------ records under a selection

  /** A record of which only these columns were fetched: other keys read as NULL, and so does an ID left out (as 0). */
  function Shown(entity: Entity, columns: seq<Column>, r: Rec): Rec {
    Rec(if entity.id.Some? && entity.id.value !in columns then 0 else r.id, map c | c in r.fks && c in columns :: r.fks[c])
  }

  function AllShown(entity: Entity, columns: seq<Column>, ns: seq<Rec>): seq<Rec> {
    seq(|ns|, i requires 0 <= i < |ns| => Shown(entity, columns, ns[i]))
  }

  /** The join key of a row is fetched beside the entity's columns, whatever these are. */
  function RowsShown(entity: Entity, columns: seq<Column>, rows: seq<JoinRow>): seq<JoinRow> {
    seq(|rows|, i requires 0 <= i < |rows| => JoinRow(rows[i].out, Shown(entity, columns, rows[i].rec)))
  }

  /** The ID column, where the entity has one, is fetched. */
  ghost predicate Identified(entity: Entity, columns: seq<Column>) {
    entity.id.Some? ==> entity.id.value in columns
  }

  ghost predicate WellFormed(entity: Entity, needed: seq<Column>) {
    (entity.id.Some? ==> entity.id.value in entity.all) && forall c :: c in needed ==> c in entity.all
  }

  /** Every selection fetches the ID and the keys that the edges need. */
  lemma SelectionFetches(entity: Entity, fields: seq<Column>, needed: seq<Column>)
    requires WellFormed(entity, needed)
    ensures var columns := QueryColumns(entity, fields, needed);
            Identified(entity, columns) && forall c :: c in needed ==> c in columns
  {
    if fields != [] {
      QueryColumnsAre(entity, fields, needed);
    }
  }

  /** The selection a one-to-many loader gives its child: unchanged when empty, else with the foreign key. */
  function ChildFields(fields: seq<Column>, fk: Column): seq<Column> {
    if fields == [] then [] else AddOnce(fields, fk)
  }

  lemma ChildSelectionFetches(child: Entity, fields: seq<Column>, needed: seq<Column>, fk: Column)
    requires WellFormed(child, needed) && fk in child.all
    ensures var columns := QueryColumns(child, ChildFields(fields, fk), needed);
            && Identified(child, columns) && fk in columns
            && (fields == [] ==> columns == child.all)
            && (fields != [] ==> forall c :: c in columns <==> c in fields || c == fk || c in needed || Some(c) == child.id)
  {
    SelectionFetches(child, ChildFields(fields, fk), needed);
    QueryColumnsAre(child, ChildFields(fields, fk), needed);
  }

  // ------------------------------------------------------------------ the joins under a selection

  lemma ShownSnoc(entity: Entity, columns: seq<Column>, ns: seq<Rec>)
    requires ns != []
    ensures var shown := AllShown(entity, columns, ns);
            && shown[..|ns| - 1] == AllShown(entity, columns, ns[..|ns| - 1])
            && shown[|ns| - 1] == Shown(entity, columns, ns[|ns| - 1])
  {
  }

  lemma ShownAppend(entity: Entity, columns: seq<Column>, ns: seq<Rec>, n: Rec)
    ensures AllShown(entity, columns, ns + [n]) == AllShown(entity, columns, ns) + [Shown(entity, columns, n)]
  {
  }

  /** Exactly the fetched keys are seen, and the ID if it is fetched or there is no such column. */
  lemma ShownKey(entity: Entity, columns: seq<Column>, n: Rec, fk: Column)
    ensures Shown(entity, columns, n).Key(fk) == if fk in columns then n.Key(fk) else None
    ensures Shown(entity, columns, n).id == if Identified(entity, columns) then n.id else 0
  {
  }

  /** Filtering fetched records is fetching the filtered ones, if `q` sees of a fetched record what `p` sees of it. */
  lemma {:induction false} FilterShown(entity: Entity, columns: seq<Column>, ns: seq<Rec>, p: Rec -> bool, q: Rec -> bool)
    requires forall n :: n in ns ==> q(Shown(entity, columns, n)) == p(n)
    ensures Filter(AllShown(entity, columns, ns), q) == AllShown(entity, columns, Filter(ns, p))
  {
    if ns == [] {
    } else {
      var before, last := ns[..|ns| - 1], ns[|ns| - 1];
      FilterShown(entity, columns, before, p, q);
      ShownSnoc(entity, columns, ns);
      ShownAppend(entity, columns, Filter(before, p), last);
      assert last in ns;
    }
  }

  /** The same for the first failure. */
  lemma {:induction false} FailureShown(entity: Entity, columns: seq<Column>, ns: seq<Rec>, p: Rec -> Outcome, q: Rec -> Outcome)
    requires forall n :: n in ns ==> q(Shown(entity, columns, n)) == p(n)
    ensures FirstFailure(AllShown(entity, columns, ns), q) == FirstFailure(ns, p)
  {
    if ns == [] {
    } else {
      ShownSnoc(entity, columns, ns);
      FailureShown(entity, columns, ns[..|ns| - 1], p, q);
      assert ns[|ns| - 1] in ns;
    }
  }

  /**
   * One-to-many edges do not depend on what the parent and the child query select: stitching
   * ends the same way, and a parent's list holds the records of the full-column join.
   */
  lemma OneToManyIndependentOfSelect(parent: Entity, child: Entity, p: Rec, children: seq<Rec>, ids: set<int>,
                                     fields: seq<Column>, needed: seq<Column>, childFields: seq<Column>, childNeeded: seq<Column>, fk: Column)
    requires WellFormed(parent, needed) && WellFormed(child, childNeeded) && parent.id.Some? && fk in child.all
    ensures var shown := Shown(parent, QueryColumns(parent, fields, needed), p);
            var columns := QueryColumns(child, ChildFields(childFields, fk), childNeeded);
            var answer := AllShown(child, columns, children);
            && OwnerOutcome(answer, fk, ids) == OwnerOutcome(children, fk, ids)
            && Filter(answer, Owned(fk, shown.id)) == AllShown(child, columns, Filter(children, Owned(fk, p.id)))
  {
    SelectionFetches(parent, fields, needed);
    ChildSelectionFetches(child, childFields, childNeeded, fk);
    var columns := QueryColumns(child, ChildFields(childFields, fk), childNeeded);
    forall n | n in children
      ensures Owned(fk, p.id)(Shown(child, columns, n)) == Owned(fk, p.id)(n)
      ensures OwnerJudge(fk, ids)(Shown(child, columns, n)) == OwnerJudge(fk, ids)(n)
    {
      ShownKey(child, columns, n, fk);
    }
    FailureShown(child, columns, children, OwnerJudge(fk, ids), OwnerJudge(fk, ids));
    FilterShown(child, columns, children, Owned(fk, p.id), Owned(fk, p.id));
  }

  lemma {:induction false} LastShown(entity: Entity, columns: seq<Column>, ns: seq<Rec>, k: int)
    requires Identified(entity, columns)
    ensures LastWithId(AllShown(entity, columns, ns), k) ==
              match LastWithId(ns, k) case None => None case Some(n) => Some(Shown(entity, columns, n))
  {
    if ns == [] {
    } else {
      ShownSnoc(entity, columns, ns);
      LastShown(entity, columns, ns[..|ns| - 1], k);
    }
  }

  /**
   * Many-to-one edges do not depend on what the two queries select: the node's key is
   * fetched because the edge needs it, and the record found for it is that of the
   * full-column join.
   */
  lemma ManyToOneIndependentOfSelect(node: Entity, target: Entity, o: Rec, targets: seq<Rec>, keys: seq<int>,
                                     fields: seq<Column>, needed: seq<Column>, targetFields: seq<Column>, targetNeeded: seq<Column>, fk: Column)
    requires WellFormed(node, needed) && WellFormed(target, targetNeeded) && fk in needed
    ensures var columns := QueryColumns(target, targetFields, targetNeeded);
            var answer := AllShown(target, columns, targets);
            && Shown(node, QueryColumns(node, fields, needed), o).Key(fk) == o.Key(fk)
            && KeyOutcome(answer, keys) == KeyOutcome(targets, keys)
            && (o.Key(fk).Some? ==>
                  LastWithId(answer, o.Key(fk).value) ==
                    match LastWithId(targets, o.Key(fk).value) case None => None case Some(n) => Some(Shown(target, columns, n)))
  {
    SelectionFetches(node, fields, needed);
    ShownKey(node, QueryColumns(node, fields, needed), o, fk);
    SelectionFetches(target, targetFields, targetNeeded);
    var columns := QueryColumns(target, targetFields, targetNeeded);
    LastShown(target, columns, targets, if o.Key(fk).Some? then o.Key(fk).value else 0);
    FailureShown(target, columns, targets, KeyJudge(keys), KeyJudge(keys));
  }

  /** Which pairs a join has is seen on the fetched rows too. */
  lemma RowsShownPairs(entity: Entity, columns: seq<Column>, rows: seq<JoinRow>, out: int, id: int)
    requires Identified(entity, columns)
    ensures Paired(RowsShown(entity, columns, rows), out, id) <==> Paired(rows, out, id)
    ensures EagerLoad.Scanned(RowsShown(entity, columns, rows), id) <==> EagerLoad.Scanned(rows, id)
  {
    var shown := RowsShown(entity, columns, rows);
    forall i | 0 <= i < |rows| ensures shown[i] in shown && rows[i] in rows && shown[i].out == rows[i].out && shown[i].rec.id == rows[i].rec.id {
    }
  }

  lemma {:induction false} FirstSeenShown(entity: Entity, columns: seq<Column>, rows: seq<JoinRow>)
    requires Identified(entity, columns)
    ensures FirstSeen(RowsShown(entity, columns, rows)) == AllShown(entity, columns, FirstSeen(rows))
  {
    if rows == [] {
    } else {
      var before, last := rows[..|rows| - 1], rows[|rows| - 1];
      var shown := RowsShown(entity, columns, rows);
      assert shown[..|rows| - 1] == RowsShown(entity, columns, before);
      FirstSeenShown(entity, columns, before);
      RowsShownPairs(entity, columns, before, 0, last.rec.id);
      ShownAppend(entity, columns, FirstSeen(before), last.rec);
    }
  }

  lemma StrayRowShown(entity: Entity, columns: seq<Column>, rows: seq<JoinRow>, id: int, ids: set<int>)
    requires Identified(entity, columns)
    ensures (exists row :: row in RowsShown(entity, columns, rows) && row.rec.id == id && row.out !in ids) <==>
            (exists row :: row in rows && row.rec.id == id && row.out !in ids)
  {
    var shown := RowsShown(entity, columns, rows);
    forall i | 0 <= i < |rows| ensures shown[i] in shown && rows[i] in rows && shown[i].out == rows[i].out && shown[i].rec.id == rows[i].rec.id {
    }
  }

  lemma StitchOutcomeShown(entity: Entity, columns: seq<Column>, ns: seq<Rec>, rows: seq<JoinRow>, ids: set<int>)
    requires Identified(entity, columns)
    ensures StitchOutcome(AllShown(entity, columns, ns), RowsShown(entity, columns, rows), ids) == StitchOutcome(ns, rows, ids)
  {
    var p, q := JoinJudge(rows, ids), JoinJudge(RowsShown(entity, columns, rows), ids);
    forall n | n in ns ensures q(Shown(entity, columns, n)) == p(n) {
      RowsShownPairs(entity, columns, rows, 0, n.id);
      StrayRowShown(entity, columns, rows, n.id, ids);
    }
    FailureShown(entity, columns, ns, p, q);
  }

  /** Many-to-many edges, and whether stitching succeeds, do not depend on what the two queries select. */
  lemma ManyToManyIndependentOfSelect(parent: Entity, child: Entity, p: Rec, rows: seq<JoinRow>, ids: set<int>,
                                      fields: seq<Column>, needed: seq<Column>, childFields: seq<Column>, childNeeded: seq<Column>)
    requires WellFormed(parent, needed) && WellFormed(child, childNeeded)
    ensures var shown := Shown(parent, QueryColumns(parent, fields, needed), p);
            var columns := QueryColumns(child, childFields, childNeeded);
            var fetched := RowsShown(child, columns, rows);
            && StitchOutcome(FirstSeen(fetched), fetched, ids) == StitchOutcome(FirstSeen(rows), rows, ids)
            && Filter(FirstSeen(fetched), PairedWith(fetched, shown.id)) ==
               AllShown(child, columns, Filter(FirstSeen(rows), PairedWith(rows, p.id)))
  {
    SelectionFetches(parent, fields, needed);
    SelectionFetches(child, childFields, childNeeded);
    var columns := QueryColumns(child, childFields, childNeeded);
    var fetched := RowsShown(child, columns, rows);
    FirstSeenShown(child, columns, rows);
    StitchOutcomeShown(child, columns, FirstSeen(rows), rows, ids);
    forall n | n in FirstSeen(rows) ensures PairedWith(fetched, p.id)(Shown(child, columns, n)) == PairedWith(rows, p.id)(n) {
      RowsShownPairs(child, columns, rows, p.id, n.id);
    }
    FilterShown(child, columns, FirstSeen(rows), PairedWith(rows, p.id), PairedWith(fetched, p.id));
  }

  // ------------------------------------------------------------------ DISTINCT over selected columns

  /** A database row: its non-NULL columns. */
  type Row = map<Column, int>

  /** A row as fetched. */
  function Projected(row: Row, columns: seq<Column>): Row {
    map c | c in row && c in columns :: row[c]
  }

  /** SELECT DISTINCT of these columns. */
  function DistinctRows(rows: seq<Row>, columns: seq<Column>): seq<Row> {
    if rows == [] then []
    else
      var before := DistinctRows(rows[..|rows| - 1], columns);
      var last := Projected(rows[|rows| - 1], columns);
      if last in before then before else before + [last]
  }

  /** No two rows agree on all columns of the primary key. */
  ghost predicate Keyed(rows: seq<Row>, key: seq<Column>) {
    && (forall i, c :: 0 <= i < |rows| && c in key ==> c in rows[i])
    && (forall i, j :: 0 <= i < j < |rows| ==> DifferOn(rows[i], rows[j], key))
  }

  ghost predicate DifferOn(a: Row, b: Row, key: seq<Column>) {
    exists c :: c in key && c in a && c in b && a[c] != b[c]
  }

  lemma {:induction false} DistinctRowsAre(rows: seq<Row>, columns: seq<Column>)
    ensures forall p :: p in DistinctRows(rows, columns) <==> exists i :: 0 <= i < |rows| && Projected(rows[i], columns) == p
  {
    if rows == [] {
    } else {
      var before := rows[..|rows| - 1];
      DistinctRowsAre(before, columns);
      forall p ensures p in DistinctRows(rows, columns) <==> exists i :: 0 <= i < |rows| && Projected(rows[i], columns) == p {
        if i :| 0 <= i < |rows| && Projected(rows[i], columns) == p {
          if i < |before| {
            assert Projected(before[i], columns) == p;
          }
        }
        if p in DistinctRows(before, columns) {
          var i :| 0 <= i < |before| && Projected(before[i], columns) == p;
          assert Projected(rows[i], columns) == p;
        }
      }
    }
  }

  /** With the whole primary key among the columns, DISTINCT drops nothing. */
  lemma {:induction false} KeyKeepsRows(rows: seq<Row>, columns: seq<Column>, key: seq<Column>)
    requires Keyed(rows, key) && forall c :: c in key ==> c in columns
    ensures |DistinctRows(rows, columns)| == |rows|
  {
    if rows == [] {
    } else {
      var before, last := rows[..|rows| - 1], rows[|rows| - 1];
      KeyKeepsRows(before, columns, key);
      DistinctRowsAre(before, columns);
      forall i | 0 <= i < |before| ensures Projected(before[i], columns) != Projected(last, columns) {
        assert DifferOn(rows[i], rows[|rows| - 1], key);
        var c :| c in key && c in rows[i] && c in last && rows[i][c] != last[c];
        assert Projected(before[i], columns)[c] == rows[i][c] && Projected(last, columns)[c] == last[c];
      }
    }
  }

  /** The columns the account-group child of an account query fetches, after the loader's change to its selection. */
  function LinkColumns(all: seq<Column>, fields: seq<Column>, withGroup: bool): seq<Column> {
    QueryColumns(Entity(all, None), ChildFields(fields, ACCOUNT_ID), if withGroup then [GROUP_ID] else [])
  }

  ghost predicate LosesNoRow(columns: seq<Column>) {
    forall rows :: Keyed(rows, [ACCOUNT_ID, GROUP_ID]) ==> |DistinctRows(rows, columns)| == |rows|
  }

  /**
   * Account-group rows have no ID, only the key pair. A child query made Unique therefore
   * keeps all its rows, on every table, exactly when nothing is selected, the group key is
   * selected, or the group edge is loaded too; otherwise rows that differ only in the group
   * collapse and edges are lost.
   */
  lemma UniqueSelectKeepsRowsExactlyWhen(all: seq<Column>, fields: seq<Column>, withGroup: bool)
    requires ACCOUNT_ID in all && GROUP_ID in all
    ensures LosesNoRow(LinkColumns(all, fields, withGroup)) <==> fields == [] || GROUP_ID in fields || withGroup
  {
    var columns := LinkColumns(all, fields, withGroup);
    if fields != [] {
      QueryColumnsAre(Entity(all, None), ChildFields(fields, ACCOUNT_ID), if withGroup then [GROUP_ID] else []);
    }
    if fields == [] || GROUP_ID in fields || withGroup {
      forall rows | Keyed(rows, [ACCOUNT_ID, GROUP_ID]) ensures |DistinctRows(rows, columns)| == |rows| {
        KeyKeepsRows(rows, columns, [ACCOUNT_ID, GROUP_ID]);
      }
    } else {
      assert GROUP_ID !in columns;
      TwoGroupsCollapse(columns);
    }
  }

  lemma TwoGroupsCollapse(columns: seq<Column>)
    requires GROUP_ID !in columns
    ensures !LosesNoRow(columns)
  {
    var a: Row, b: Row := map[ACCOUNT_ID := 1, GROUP_ID := 1], map[ACCOUNT_ID := 1, GROUP_ID := 2];
    var rows := [a, b];
    assert GROUP_ID in [ACCOUNT_ID, GROUP_ID] && a[GROUP_ID] != b[GROUP_ID];
    assert DifferOn(a, b, [ACCOUNT_ID, GROUP_ID]);
    assert Keyed(rows, [ACCOUNT_ID, GROUP_ID]);
    assert Projected(a, columns) == Projected(b, columns);
    assert rows[..1] == [a] && [a][..0] == [];
    assert DistinctRows([a], columns) == [Projected(a, columns)];
    assert DistinctRows(rows, columns) == [Projected(a, columns)];
  }
}
