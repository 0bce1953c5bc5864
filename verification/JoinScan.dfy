/**
 * From the cells of a many-to-many query to the join: the rewritten row scanner of
 * `loadGroups` decodes exactly the pairs that the stitching works on.
 */
module JoinScan {
  import opened Prelude
  import opened EagerLoad
  import opened EagerLoadTheorems
  import RowCodec

  type Cells = seq<RowCodec.Cell>

  /** A row as scanned: an integer holder for the join key, then a holder per entity column. */
  ghost predicate Scans(columns: seq<RowCodec.Column>, row: Cells) {
    |row| == |columns| + 1 && row[0].IntCell? && RowCodec.Scannable(columns, row[1..])
  }

  ghost predicate AllScan(columns: seq<RowCodec.Column>, rows: seq<Cells>) {
    forall i :: 0 <= i < |rows| ==> Scans(columns, rows[i])
  }

  /** The columns as every query spec of an entity with an ID puts them. */
  ghost predicate IdFirst(columns: seq<RowCodec.Column>) {
    columns != [] && columns[0] == RowCodec.ID && RowCodec.ID !in columns[1..]
  }

  /** The record of a decoded entity. */
  function RecordOf(a: RowCodec.Account): Rec {
    Rec(match RowCodec.Read(a, RowCodec.ID) case IntV(Some(id)) => id case _ => 0,
        match RowCodec.Read(a, RowCodec.ProxyID) case IntV(Some(fk)) => map[PROXY_ID := fk] case _ => map[])
  }

  function Entity(codec: RowCodec.Codec, columns: seq<RowCodec.Column>, row: Cells): RowCodec.Assigned
    requires |row| == |columns| + 1
  {
    RowCodec.Assign(codec, columns, row[1..])
  }

  /** The pair that a row stands for; an entity that does not decode keeps its ID only. */
  function Decoded(codec: RowCodec.Codec, columns: seq<RowCodec.Column>, row: Cells): JoinRow
    requires |row| == |columns| + 1 && columns != []
  {
    var entity := Entity(codec, columns, row);
    JoinRow(RowCodec.Int64(row[0]), if entity.Done? then RecordOf(entity.account) else Rec(RowCodec.Int64(row[1]), map[]))
  }

  function AllDecoded(codec: RowCodec.Codec, columns: seq<RowCodec.Column>, rows: seq<Cells>): (r: seq<JoinRow>)
    requires columns != [] && AllScan(columns, rows)
    ensures |r| == |rows|
  {
    seq(|rows|, i requires 0 <= i < |rows| => Decoded(codec, columns, rows[i]))
  }

  /** The pair of a row is read off its first two cells. */
  lemma DecodedPair(codec: RowCodec.Codec, columns: seq<RowCodec.Column>, row: Cells)
    requires IdFirst(columns) && Scans(columns, row)
    ensures Decoded(codec, columns, row).out == RowCodec.Int64(row[0]) && Decoded(codec, columns, row).rec.id == RowCodec.Int64(row[1])
  {
    if Entity(codec, columns, row).Done? {
      assert columns[..|columns|] == columns;
      RowCodec.FirstColumnIsID(codec, columns, row[1..], |columns|);
    }
  }

  /** What the rewritten `Assign` reads of a row. */
  lemma RowReads(codec: RowCodec.Codec, join: RowCodec.Column, columns: seq<RowCodec.Column>, row: Cells)
    requires IdFirst(columns) && Scans(columns, row)
    ensures var d := Decoded(codec, columns, row);
            RowCodec.JoinRow(codec, [join] + columns, row) == Some((d.out, d.rec.id, Entity(codec, columns, row)))
  {
    var all, kinds := [row[0]] + row[1..], RowCodec.JoinKinds([join] + columns);
    assert all == row;
    forall i | 0 <= i < |all| ensures RowCodec.KindOf(all[i]) == kinds[i] {
      if i > 0 {
        assert row[i] == row[1..][i - 1];
      }
    }
    RowCodec.ShiftedScan(codec, join, columns, row[0], row[1..]);
    DecodedPair(codec, columns, row);
  }

  /** Two accounts and groups are paired in the decoded rows exactly when some row has their IDs in its first two cells. */
  lemma PairsAreCells(codec: RowCodec.Codec, columns: seq<RowCodec.Column>, rows: seq<Cells>, account: int, group: int)
    requires IdFirst(columns) && AllScan(columns, rows)
    ensures Paired(AllDecoded(codec, columns, rows), account, group) <==>
            exists i :: 0 <= i < |rows| && RowCodec.Int64(rows[i][0]) == account && RowCodec.Int64(rows[i][1]) == group
  {
    var decoded := AllDecoded(codec, columns, rows);
    forall i | 0 <= i < |rows| ensures decoded[i].out == RowCodec.Int64(rows[i][0]) && decoded[i].rec.id == RowCodec.Int64(rows[i][1]) {
      DecodedPair(codec, columns, rows[i]);
    }
    if Paired(decoded, account, group) {
      var i :| 0 <= i < |decoded| && decoded[i].out == account && decoded[i].rec.id == group;
      assert RowCodec.Int64(rows[i][0]) == account;
    }
    if i :| 0 <= i < |rows| && RowCodec.Int64(rows[i][0]) == account && RowCodec.Int64(rows[i][1]) == group {
      assert decoded[i] in decoded;
    }
  }

  /** Row i is the first of its neighbour, the only one whose entity is decoded. */
  ghost predicate FirstOfId(decoded: seq<JoinRow>, i: nat)
    requires i < |decoded|
  {
    !Scanned(decoded[..i], decoded[i].rec.id)
  }

  /** Among the first n rows, those that are the first of their neighbour decode. */
  ghost predicate FirstsDecode(codec: RowCodec.Codec, columns: seq<RowCodec.Column>, rows: seq<Cells>, n: nat)
    requires columns != [] && AllScan(columns, rows) && n <= |rows|
  {
    forall j :: 0 <= j < n && FirstOfId(AllDecoded(codec, columns, rows), j) ==> Entity(codec, columns, rows[j]).Done?
  }

  /** One row: its two IDs and the entity, which decodes to the row's record. */
  method ReadRow(codec: RowCodec.Codec, join: RowCodec.Column, columns: seq<RowCodec.Column>, row: Cells)
    returns (out: int, id: int, entity: RowCodec.Assigned)
    requires IdFirst(columns) && Scans(columns, row)
    ensures entity == Entity(codec, columns, row)
    ensures var d := Decoded(codec, columns, row); out == d.out && id == d.rec.id && (entity.Done? ==> d.rec == RecordOf(entity.account))
  {
    RowReads(codec, join, columns, row);
    var read := RowCodec.JoinRow(codec, [join] + columns, row).value;
    out, id, entity := read.0, read.1, read.2;
  }

  /**
   * The rows of the second query through the rewritten scanner. It fails exactly when the
   * first row of some neighbour does not decode, with the error of the first such row;
   * otherwise it leaves what the join works on: every pair and one record per neighbour.
   */
  method ScanRows(codec: RowCodec.Codec, join: RowCodec.Column, columns: seq<RowCodec.Column>, rows: seq<Cells>, byID: map<int, Node>)
    returns (nids: map<int, set<Node?>>, found: seq<Rec>, failed: Option<nat>)
    requires IdFirst(columns) && AllScan(columns, rows)
    ensures var decoded := AllDecoded(codec, columns, rows);
            match failed
            case Some(i) =>
              && i < |rows| && FirstOfId(decoded, i) && !Entity(codec, columns, rows[i]).Done?
              && FirstsDecode(codec, columns, rows, i)
            case None =>
              && FirstsDecode(codec, columns, rows, |rows|)
              && found == FirstSeen(decoded) && Recorded(decoded, byID, nids)
  {
    ghost var decoded := AllDecoded(codec, columns, rows);
    nids, found := map[], [];
    for i := 0 to |rows|
      invariant FirstsDecode(codec, columns, rows, i)
      invariant found == FirstSeen(decoded[..i]) && Recorded(decoded[..i], byID, nids)
    {
      var out, id, entity := ReadRow(codec, join, columns, rows[i]);
      RecordedStep(decoded, byID, nids, i);
      FirstSeenSnoc(decoded, i);
      if id !in nids {
        nids := nids[id := {Lookup(byID, out)}];
        if !entity.Done? {
          return nids, found, Some(i);
        }
        found := found + [RecordOf(entity.account)];
      } else {
        nids := nids[id := nids[id] + {Lookup(byID, out)}];
      }
    }
    assert decoded[..|rows|] == decoded;
    failed := None;
  }

  /** Stitching the scanned neighbours succeeds exactly when every row names a known parent. */
  lemma StitchesExactlyWhen(codec: RowCodec.Codec, columns: seq<RowCodec.Column>, rows: seq<Cells>, ids: set<int>)
    requires IdFirst(columns) && AllScan(columns, rows)
    ensures var decoded := AllDecoded(codec, columns, rows);
            StitchOutcome(FirstSeen(decoded), decoded, ids) == Loaded <==> forall i :: 0 <= i < |rows| ==> RowCodec.Int64(rows[i][0]) in ids
  {
    var decoded := AllDecoded(codec, columns, rows);
    StitchLoadedExactlyWhen(FirstSeen(decoded), decoded, ids);
    FirstSeenIds(decoded);
    forall i | 0 <= i < |rows|
      ensures decoded[i] in decoded && decoded[i].out == RowCodec.Int64(rows[i][0]) && HasId(FirstSeen(decoded), decoded[i].rec.id)
    {
      DecodedPair(codec, columns, rows[i]);
      assert Scanned(decoded, decoded[i].rec.id);
    }
    forall n | n in FirstSeen(decoded) ensures Scanned(decoded, n.id) {
      assert HasId(FirstSeen(decoded), n.id);
    }
    if StitchOutcome(FirstSeen(decoded), decoded, ids) == Loaded {
      forall i | 0 <= i < |rows| ensures RowCodec.Int64(rows[i][0]) in ids {
        var n :| n in FirstSeen(decoded) && n.id == decoded[i].rec.id;
      }
    }
  }

  /**
   * From cells to edges: after scanning and stitching, an account's list holds a group exactly
   * when some row has their two IDs in its first two cells, and holds it once.
   */
  method LoadCells(nodes: seq<Node>, e: Edge, codec: RowCodec.Codec, join: RowCodec.Column, columns: seq<RowCodec.Column>, rows: seq<Cells>)
    returns (out: Outcome)
    requires Distinct(nodes) && DistinctNodeIds(nodes) && IdFirst(columns) && AllScan(columns, rows)
    modifies nodes
    ensures if !FirstsDecode(codec, columns, rows, |rows|) then out.QueryFailed?
            else out == Loaded <==> forall i :: 0 <= i < |rows| ==> RowCodec.Int64(rows[i][0]) in IdSet(nodes)
    ensures out == Loaded ==> forall o :: o in nodes ==>
              e in o.many && DistinctIds(o.many[e]) && ListsCells(rows, o.id, o.many[e])
  {
    var _, byID := IndexNodes(nodes);
    InitEdges(nodes, e);
    var nids, found, failed := ScanRows(codec, join, columns, rows, byID);
    if failed.Some? {
      return QueryFailed("row");
    }
    out := StitchJoin(nodes, e, AllDecoded(codec, columns, rows), nids, found);
    StitchesExactlyWhen(codec, columns, rows, IdSet(nodes));
    DistinctIdsResolve(nodes);
    forall o | o in nodes && out == Loaded ensures DistinctIds(o.many[e]) && ListsCells(rows, o.id, o.many[e]) {
      ListIsCells(codec, columns, rows, o.id);
    }
  }

  /** `list` holds a group exactly when some row has the account and the group in its first two cells. */
  ghost predicate ListsCells(rows: seq<Cells>, account: int, list: seq<Rec>)
    requires forall i :: 0 <= i < |rows| ==> |rows[i]| >= 2
  {
    forall group :: HasId(list, group) <==>
      exists i :: 0 <= i < |rows| && RowCodec.Int64(rows[i][0]) == account && RowCodec.Int64(rows[i][1]) == group
  }

  lemma ListIsCells(codec: RowCodec.Codec, columns: seq<RowCodec.Column>, rows: seq<Cells>, account: int)
    requires IdFirst(columns) && AllScan(columns, rows)
    ensures var decoded := AllDecoded(codec, columns, rows);
            var list := Filter(FirstSeen(decoded), PairedWith(decoded, account));
            DistinctIds(list) && ListsCells(rows, account, list)
  {
    var decoded := AllDecoded(codec, columns, rows);
    JoinOnceEach(decoded, account);
    forall group
      ensures Paired(decoded, account, group) <==>
              exists i :: 0 <= i < |rows| && RowCodec.Int64(rows[i][0]) == account && RowCodec.Int64(rows[i][1]) == group
    {
      PairsAreCells(codec, columns, rows, account, group);
    }
  }
}
