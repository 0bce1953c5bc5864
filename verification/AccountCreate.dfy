/**
 * The create builder of an account: `defaults`, `check` and `createSpec`; the round trip
 * from a created row back to the node; and the builder as an instance of the bulk chain.
 */
module AccountCreate {
  import opened Prelude
  import opened RowCodec
  import BulkCreate
  import BulkCreateTheorems
  import BulkCreatePromises

  /** The fields set on a create mutation (the proxy edge is its foreign key). */
  type Mutation = map<Column, Content>

  ghost predicate Present(v: Content) {
    match v
    case IntV(x) => x.Some?
    case TimeV(x) => x.Some?
    case StrV(x) => x.Some?
    case BoolV(x) => x.Some?
    case FloatV(x) => x.Some?
    case DocV(_) => true
    case SelectedV(_) => false
  }

  function ContentKind(v: Content): Kind {
    match v
    case IntV(_) => KInt
    case TimeV(_) => KTime
    case StrV(_) => KStr
    case BoolV(_) => KBool
    case FloatV(_) => KFloat
    case DocV(_) => KBytes
    case SelectedV(_) => KUnknown
  }

  /** The field type under which `createSpec` sends a column. */
  function SentKind(c: Column): Kind {
    match c
    case CreatedAt | UpdatedAt | DeletedAt => KTime
    case Name | Notes | Platform | Type => KStr
    case Credentials | Extra => KBytes
    case ProxyID | ProxyFallbackOriginID | Concurrency | LoadFactor | Priority => KInt
    case RateMultiplier => KFloat
    case Status | ErrorMessage => KStr
    case LastUsedAt | ExpiresAt => KTime
    case AutoPauseOnExpired | Schedulable => KBool
    case RateLimitedAt | RateLimitResetAt | OverloadUntil | TempUnschedulableUntil => KTime
    case TempUnschedulableReason => KStr
    case SessionWindowStart | SessionWindowEnd => KTime
    case SessionWindowStatus => KStr
    case ID | Other(_) => KUnknown
  }

  /** What Go's types guarantee of a mutation: real columns other than the ID, each with a value of its type. */
  ghost predicate Typed(m: Mutation) {
    forall c :: c in m ==> Present(m[c]) && ContentKind(m[c]) == SentKind(c)
  }

  /** Every column is sent under the type it is read back with. */
  lemma SentFitsRead(c: Column)
    ensures SentKind(c) == if c == ID then KUnknown else AssertedKind(c)
  {
  }

  // ------------------------------------------------------------------ defaults and check

  /** The columns `defaults` fills, in its order; the first four come from functions that may be unset. */
  const DEFAULTED: seq<Column> := [
    CreatedAt, UpdatedAt, Credentials, Extra, Concurrency, Priority, RateMultiplier, Status, AutoPauseOnExpired, Schedulable]

  /** `defaults` over a list of columns: stops at the first one that is unset and has no default. */
  function Defaults(columns: seq<Column>, runtime: map<Column, Content>, m: Mutation): (Mutation, Option<Column>) {
    if columns == [] then (m, None)
    else if columns[0] in m then Defaults(columns[1..], runtime, m)
    else if columns[0] !in runtime then (m, Some(columns[0]))
    else Defaults(columns[1..], runtime, m[columns[0] := runtime[columns[0]]])
  }

  /** The fields `check` requires, in its order. */
  const REQUIRED: seq<Column> := [
    CreatedAt, UpdatedAt, Name, Platform, Type, Credentials, Extra, Concurrency, Priority, RateMultiplier, Status,
    AutoPauseOnExpired, Schedulable]

  /** `check`: each required field present and valid, then the optional session window status valid. */
  function CheckFields(columns: seq<Column>, valid: (Column, Content) -> bool, m: Mutation): Option<Column> {
    if columns == [] then
      if SessionWindowStatus in m && !valid(SessionWindowStatus, m[SessionWindowStatus]) then Some(SessionWindowStatus) else None
    else if columns[0] !in m || !valid(columns[0], m[columns[0]]) then Some(columns[0])
    else CheckFields(columns[1..], valid, m)
  }

  function Check(valid: (Column, Content) -> bool, m: Mutation): Option<Column> {
    CheckFields(REQUIRED, valid, m)
  }

  /** `c` is set and valid. */
  ghost predicate Good(valid: (Column, Content) -> bool, m: Mutation, c: Column) {
    c in m && valid(c, m[c])
  }

  /** The session window status is not set, or set and valid. */
  ghost predicate GoodStatus(valid: (Column, Content) -> bool, m: Mutation) {
    SessionWindowStatus in m ==> valid(SessionWindowStatus, m[SessionWindowStatus])
  }

  /** `check` passes exactly when every listed field is set and valid and the optional one is valid; else it names the first that is not. */
  lemma {:induction false} CheckFieldsFacts(columns: seq<Column>, valid: (Column, Content) -> bool, m: Mutation)
    ensures CheckFields(columns, valid, m).None? <==> (forall c :: c in columns ==> Good(valid, m, c)) && GoodStatus(valid, m)
    ensures CheckFields(columns, valid, m).Some? ==>
              var bad := CheckFields(columns, valid, m).value;
              || (bad == SessionWindowStatus && !GoodStatus(valid, m) && forall c :: c in columns ==> Good(valid, m, c))
              || exists i :: 0 <= i < |columns| && columns[i] == bad && !Good(valid, m, bad) && AllGood(valid, m, columns[..i])
  {
    if columns == [] {
    } else {
      CheckFieldsFacts(columns[1..], valid, m);
      assert columns == [columns[0]] + columns[1..];
      if !Good(valid, m, columns[0]) {
        assert AllGood(valid, m, columns[..0]);
      } else if i :| 0 <= i < |columns[1..]| && CheckFields(columns, valid, m) == Some(columns[1..][i]) && AllGood(valid, m, columns[1..][..i]) {
        assert columns[..i + 1] == [columns[0]] + columns[1..][..i];
        assert AllGood(valid, m, columns[..i + 1]) && columns[i + 1] == columns[1..][i];
      }
    }
  }

  ghost predicate AllGood(valid: (Column, Content) -> bool, m: Mutation, columns: seq<Column>) {
    forall c :: c in columns ==> Good(valid, m, c)
  }

  /**
   * A stopped `defaults` leaves its column unset; a completed one has set them all. What was
   * set stays, and what was filled is a listed column with its default.
   */
  lemma {:induction false} DefaultsFacts(columns: seq<Column>, runtime: map<Column, Content>, m: Mutation)
    ensures var (m', stopped) := Defaults(columns, runtime, m);
            && (forall c :: c in m ==> c in m' && m'[c] == m[c])
            && (forall c :: c in m' && c !in m ==> c in columns && c in runtime && m'[c] == runtime[c])
            && (stopped.Some? ==> stopped.value in columns && stopped.value !in m' && stopped.value !in runtime)
            && (stopped.None? ==> forall c :: c in columns ==> c in m')
  {
    if columns == [] {
    } else {
      assert columns == [columns[0]] + columns[1..];
      if columns[0] in m {
        DefaultsFacts(columns[1..], runtime, m);
      } else if columns[0] in runtime {
        DefaultsFacts(columns[1..], runtime, m[columns[0] := runtime[columns[0]]]);
      }
    }
  }

  /** The required columns are exactly the table's columns, other than the ID, that are no pointers. */
  lemma RequiredOrNullable(c: Column)
    ensures c in REQUIRED <==> !c.Other? && c != ID && !Nullable(c)
  {
    UnnullableRequired(c);
    if c in REQUIRED {
      var i :| 0 <= i < |REQUIRED| && REQUIRED[i] == c;
      RequiredUnnullable(i);
    }
  }

  lemma UnnullableRequired(c: Column)
    ensures !c.Other? && c != ID && !Nullable(c) ==> c in REQUIRED
  {
  }

  lemma RequiredUnnullable(i: nat)
    requires i < |REQUIRED|
    ensures !REQUIRED[i].Other? && REQUIRED[i] != ID && !Nullable(REQUIRED[i])
  {
  }

  /** Every column that can fail to default is required. */
  lemma DefaultedAreRequired(i: nat)
    requires i < |DEFAULTED|
    ensures DEFAULTED[i] in REQUIRED
  {
  }

  /** After completed defaults only a name, a platform or a type can be missing. */
  lemma DefaultsLeaveThree(runtime: map<Column, Content>, m: Mutation, c: Column)
    requires Defaults(DEFAULTED, runtime, m).1.None? && c in REQUIRED
    ensures c in Defaults(DEFAULTED, runtime, m).0 || (c in {Name, Platform, Type} && c !in m)
  {
    DefaultsFacts(DEFAULTED, runtime, m);
    OnlyThreeNotDefaulted(c);
  }

  lemma OnlyThreeNotDefaulted(c: Column)
    ensures c in DEFAULTED <==> c in REQUIRED && c !in {Name, Platform, Type}
  {
  }

  /** A builder whose defaulting failed does not pass `check`. */
  lemma FailedDefaultsFailCheck(runtime: map<Column, Content>, valid: (Column, Content) -> bool, m: Mutation)
    requires Defaults(DEFAULTED, runtime, m).1.Some?
    ensures Check(valid, Defaults(DEFAULTED, runtime, m).0).Some?
  {
    DefaultsFacts(DEFAULTED, runtime, m);
    var i :| 0 <= i < |DEFAULTED| && DEFAULTED[i] == Defaults(DEFAULTED, runtime, m).1.value;
    DefaultedAreRequired(i);
    CheckFieldsFacts(REQUIRED, valid, Defaults(DEFAULTED, runtime, m).0);
  }

  // ------------------------------------------------------------------ createSpec and the round trip

  /** The columns `createSpec` looks at, in its order; the proxy edge comes last. */
  const CREATED: seq<Column> := [
    CreatedAt, UpdatedAt, DeletedAt, Name, Notes, Platform, Type, Credentials, Extra, ProxyFallbackOriginID,
    Concurrency, LoadFactor, Priority, RateMultiplier, Status, ErrorMessage, LastUsedAt, ExpiresAt,
    AutoPauseOnExpired, Schedulable, RateLimitedAt, RateLimitResetAt, OverloadUntil, TempUnschedulableUntil,
    TempUnschedulableReason, SessionWindowStart, SessionWindowEnd, SessionWindowStatus, ProxyID]

  /** The value the driver sends for a field. */
  function Encode(codec: Codec, v: Content): Cell {
    match v
    case IntV(x) => IntCell(x)
    case TimeV(x) => TimeCell(x)
    case StrV(x) => StrCell(x)
    case BoolV(x) => BoolCell(x)
    case FloatV(x) => FloatCell(x)
    case DocV(doc) => BytesCell(codec.enc(doc))
    case SelectedV(_) => UnknownCell(0)
  }

  /** The node and the insert spec: exactly the fields that are set, each under its own column. */
  method CreateSpec(codec: Codec, m: Mutation) returns (node: Account, spec: map<Column, Cell>)
    requires Typed(m)
    ensures node == m
    ensures forall c :: c in spec <==> c in m
    ensures forall c :: c in spec ==> spec[c] == Encode(codec, m[c])
  {
    TypedCovered(m);
    node, spec := SetFields(codec, m, CREATED);
  }

  lemma TypedCovered(m: Mutation)
    requires Typed(m)
    ensures forall c :: c in m ==> c in CREATED
  {
  }

  /** The body of `createSpec` over a list of columns. */
  method SetFields(codec: Codec, m: Mutation, columns: seq<Column>) returns (node: Account, spec: map<Column, Cell>)
    requires forall c :: c in m ==> c in columns
    ensures node == m
    ensures forall c :: c in spec <==> c in m
    ensures forall c :: c in spec ==> spec[c] == Encode(codec, m[c])
  {
    node, spec := map[], map[];
    for i := 0 to |columns|
      invariant forall c :: c in node <==> c in m && c in columns[..i]
      invariant forall c :: c in node ==> node[c] == m[c]
      invariant forall c :: c in spec <==> c in node
      invariant forall c :: c in spec ==> spec[c] == Encode(codec, m[c])
    {
      var column := columns[i];
      assert columns[..i + 1] == columns[..i] + [column];
      if column in m {
        spec := spec[column := Encode(codec, m[column])];
        node := node[column := m[column]];
      }
    }
    assert columns[..|columns|] == columns;
  }

  /** A row as stored: the generated ID, the inserted cells, and the table's default for every other column. */
  function StoredCell(codec: Codec, m: Mutation, id: int, table: Column -> Cell, c: Column): Cell {
    if c == ID then IntCell(Some(id)) else if c in m then Encode(codec, m[c]) else table(c)
  }

  /** A column default has its column's type, and a nullable column defaults to NULL. */
  ghost predicate TableDefaults(table: Column -> Cell) {
    forall c: Column :: !c.Other? ==>
      && KindOf(table(c)) == HolderKind(c)
      && (Nullable(c) ==> match table(c)
                          case IntCell(x) => x.None?
                          case TimeCell(x) => x.None?
                          case StrCell(x) => x.None?
                          case _ => false)
  }

  /** All columns of the table, once each, in any order. */
  ghost predicate AllColumns(columns: seq<Column>) {
    Distinct(columns) && forall c :: c in columns <==> !c.Other?
  }

  /** The table's own column list is such a list. */
  lemma ColumnsAreAll()
    ensures AllColumns(COLUMNS)
  {
    ColumnsDistinct();
    forall c: Column ensures c in COLUMNS <==> !c.Other? {
      Listed(c);
    }
  }

  lemma ColumnsDistinct()
    ensures Distinct(COLUMNS)
  {
  }

  lemma Listed(c: Column)
    ensures c in COLUMNS <==> !c.Other?
  {
  }

  /** The stored cell of a column decodes to the field of the node. */
  lemma CellReadsBack(codec: Codec, valid: (Column, Content) -> bool, m: Mutation, id: int, table: Column -> Cell, c: Column)
    requires Faithful(codec) && Typed(m) && TableDefaults(table) && Check(valid, m).None? && !c.Other?
    ensures KindOf(StoredCell(codec, m, id, table, c)) == HolderKind(c)
    ensures var told := Told(codec, c, StoredCell(codec, m, id, table, c));
            told.Success? && Read(m[ID := IntV(Some(id))], c) == if told.value.Some? then told.value.value else Zero(c)
  {
    ScanFitsAssign(c);
    if c != ID && c !in m {
      RequiredOrNullable(c);
      CheckFieldsFacts(REQUIRED, valid, m);
      assert Nullable(c);
    }
  }

  /**
   * Create, then read: for every mutation that passes `check`, decoding the stored row, with
   * the columns in any order, yields the node that `createSpec` returned, with the row's ID.
   */
  lemma CreateReadRoundTrip(codec: Codec, valid: (Column, Content) -> bool, m: Mutation, id: int, table: Column -> Cell,
                            columns: seq<Column>, values: seq<Cell>)
    requires Faithful(codec) && Typed(m) && TableDefaults(table) && Check(valid, m).None?
    requires AllColumns(columns) && |values| == |columns|
    requires forall i :: 0 <= i < |columns| ==> values[i] == StoredCell(codec, m, id, table, columns[i])
    ensures Assign(codec, columns, values).Done?
    ensures SameEntity(Assign(codec, columns, values).account, m[ID := IntV(Some(id))])
  {
    StoredRowDecodes(codec, valid, m, id, table, columns, values);
    forall c ensures Read(Assign(codec, columns, values).account, c) == Read(m[ID := IntV(Some(id))], c) {
      FieldReadsBack(codec, valid, m, id, table, columns, values, c);
    }
  }

  lemma FieldReadsBack(codec: Codec, valid: (Column, Content) -> bool, m: Mutation, id: int, table: Column -> Cell,
                       columns: seq<Column>, values: seq<Cell>, c: Column)
    requires Faithful(codec) && Typed(m) && TableDefaults(table) && Check(valid, m).None?
    requires AllColumns(columns) && |values| == |columns| && Assign(codec, columns, values).Done?
    requires forall i :: 0 <= i < |columns| ==> values[i] == StoredCell(codec, m, id, table, columns[i])
    ensures Read(Assign(codec, columns, values).account, c) == Read(m[ID := IntV(Some(id))], c)
  {
    if c in columns {
      var i :| 0 <= i < |columns| && columns[i] == c;
      AssignReadsAt(codec, columns, values, i);
      CellReadsBack(codec, valid, m, id, table, c);
      assert values[i] == StoredCell(codec, m, id, table, c);
    } else {
      UnfetchedReadsZero(codec, columns, values, c);
      OtherUnset(m, id, c);
    }
  }

  lemma OtherUnset(m: Mutation, id: int, c: Column)
    requires Typed(m) && c.Other?
    ensures Read(m[ID := IntV(Some(id))], c) == Zero(c)
  {
  }

  lemma StoredRowDecodes(codec: Codec, valid: (Column, Content) -> bool, m: Mutation, id: int, table: Column -> Cell,
                         columns: seq<Column>, values: seq<Cell>)
    requires Faithful(codec) && Typed(m) && TableDefaults(table) && Check(valid, m).None?
    requires AllColumns(columns) && |values| == |columns|
    requires forall i :: 0 <= i < |columns| ==> values[i] == StoredCell(codec, m, id, table, columns[i])
    ensures Assign(codec, columns, values).Done?
  {
    forall i | 0 <= i < |columns|
      ensures KindOf(values[i]) == HolderKind(columns[i]) && Told(codec, columns[i], values[i]).Success?
    {
      assert columns[i] in columns;
      CellReadsBack(codec, valid, m, id, table, columns[i]);
    }
    assert columns[..|columns|] == columns;
    NeverMismatch(codec, columns, values, |columns|);
  }

  // ------------------------------------------------------------------ the bulk chain of accounts

  /** Hooks that never set column `c` on a mutation they are given. */
  ghost predicate NeverFill(hooks: seq<BulkCreate.Hook<Mutation>>, c: Column) {
    forall h, j, f :: 0 <= h < |hooks| && 0 <= j < |hooks[h].calls| && c !in f ==> c !in hooks[h].calls[j].edit(f)
  }

  lemma {:induction false} OwnStaysUnset(hooks: seq<BulkCreate.Hook<Mutation>>, h: nat, f: Mutation, c: Column)
    requires NeverFill(hooks, c) && c !in f
    ensures c !in BulkCreateTheorems.OwnFields(hooks, h, f)
    decreases |hooks| - h
  {
    if h < |hooks| && hooks[h].calls != [] {
      OwnStaysUnset(hooks, h + 1, hooks[h].calls[0].edit(f), c);
    }
  }

  /**
   * Bulk `Save` discards the error of `defaults`. Yet when defaulting fails on some builder,
   * nothing is inserted, unless a hook of that builder sets the missing field.
   */
  lemma FailedDefaultsInsertNothing<N, S>(c: BulkCreate.Chain<Mutation, N, S>, valid: (Column, Content) -> bool, runtime: map<Column, Content>,
                                          fields: seq<Mutation>, defaults: Mutation -> Mutation, k: nat)
    requires BulkCreateTheorems.AtMostOnce(c) && |fields| == |c.hooks| && k < |fields|
    requires forall m :: c.check(m).Ok? <==> Check(valid, m).None?
    requires forall m :: defaults(m) == Defaults(DEFAULTED, runtime, m).0
    requires var stopped := Defaults(DEFAULTED, runtime, fields[k]).1; stopped.Some? && NeverFill(c.hooks[k], stopped.value)
    ensures BulkCreate.RunSave(c, fields, defaults).0.log == []
  {
    var missing := Defaults(DEFAULTED, runtime, fields[k]).1.value;
    var full := BulkCreateTheorems.Defaulted(fields, defaults);
    DefaultsFacts(DEFAULTED, runtime, fields[k]);
    assert full[k] == Defaults(DEFAULTED, runtime, fields[k]).0;
    OwnStaysUnset(c.hooks[k], 0, full[k], missing);
    var own := BulkCreateTheorems.OwnFields(c.hooks[k], 0, full[k]);
    var i :| 0 <= i < |DEFAULTED| && DEFAULTED[i] == missing;
    DefaultedAreRequired(i);
    CheckFieldsFacts(REQUIRED, valid, own);
    assert c.check(own).Err?;
    BulkCreateTheorems.BatchExactlyWhen(c, fields, defaults);
  }

  /** A chain of one builder with these hooks, over an account's `check`. */
  function OneAccount(hooks: seq<BulkCreate.Hook<Mutation>>, valid: (Column, Content) -> bool, batch: (nat, seq<Option<Mutation>>) -> BulkCreate.Batch)
    : BulkCreate.Chain<Mutation, Mutation, Mutation>
  {
    BulkCreate.Chain([hooks], (m: Mutation) => if Check(valid, m).None? then BulkCreate.Ok else BulkCreate.Err("invalid"), m => m, m => m, true, batch)
  }

  /** A hook that sets CreatedAt and hands on the mutation it was given. */
  function FillCreatedAt(v: Content): BulkCreate.Hook<Mutation> {
    BulkCreate.Hook([BulkCreate.Call((f: Mutation) => f[CreatedAt := v], BulkCreate.Same)], (_, f) => f, _ => BulkCreate.Ok)
  }

  /**
   * A hook that fills what could not be defaulted makes bulk and single save differ: with no
   * default for CreatedAt, the bulk save inserts the row and the single save refuses it,
   * although the mutation that is sent is the one that was checked.
   */
  lemma FilledByHookOnlyInBulk(runtime: map<Column, Content>, valid: (Column, Content) -> bool, m: Mutation, v: Content,
                               defaults: Mutation -> Mutation, failed: Mutation -> bool, batch: (nat, seq<Option<Mutation>>) -> BulkCreate.Batch)
    requires CreatedAt !in runtime && CreatedAt !in m && Check(valid, m[CreatedAt := v]).None?
    requires defaults(m) == Defaults(DEFAULTED, runtime, m).0 && failed(m) == Defaults(DEFAULTED, runtime, m).1.Some?
    ensures var c, hooks := OneAccount([FillCreatedAt(v)], valid, batch), [FillCreatedAt(v)];
            && BulkCreate.RunSave(c, [m], defaults).0.log != []
            && BulkCreatePromises.SingleSave(hooks, c.check, defaults, failed, m) == None
            && BulkCreateTheorems.SentFields(hooks, 0, defaults(m)) == BulkCreateTheorems.OwnFields(hooks, 0, defaults(m))
  {
    var c, hooks := OneAccount([FillCreatedAt(v)], valid, batch), [FillCreatedAt(v)];
    assert Defaults(DEFAULTED, runtime, m) == (m, Some(CreatedAt));
    BulkCreateTheorems.BatchExactlyWhen(c, [m], defaults);
    assert BulkCreateTheorems.Defaulted([m], defaults)[0] == m;
    assert BulkCreateTheorems.OwnFields(hooks, 0, m) == m[CreatedAt := v];
  }

  /** Such a mutation: every other required field set. */
  lemma OnlyCreatedAtMissing()
    ensures var m: Mutation := map c | c in REQUIRED && c != CreatedAt :: Zero(c);
            CreatedAt !in m && Check((_, _) => true, m[CreatedAt := TimeV(Some(1))]).None?
  {
    var m: Mutation := map c | c in REQUIRED && c != CreatedAt :: Zero(c);
    AllRequiredPass(REQUIRED, (_, _) => true, m[CreatedAt := TimeV(Some(1))]);
  }

  lemma {:induction false} AllRequiredPass(columns: seq<Column>, valid: (Column, Content) -> bool, m: Mutation)
    requires (forall c :: c in columns ==> c in m && valid(c, m[c])) && SessionWindowStatus !in m
    ensures CheckFields(columns, valid, m).None?
  {
    if columns == [] {
    } else {
      AllRequiredPass(columns[1..], valid, m);
    }
  }
}
