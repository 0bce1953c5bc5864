/**
 * The row codec of an account: the holders a scan allocates per column, the assignment of
 * scanned values to the entity, and the insert spec of a create builder. Times and JSON
 * documents are opaque values; the JSON codec is a parameter.
 *
 * An entity is the content of its fields, each named by its column; a field that was never
 * written has its zero value.
 */
module RowCodec {
  import opened Prelude

  type Time = int
  type Doc = int

  /** The columns of the accounts table; any other selected column is kept by name. */
  datatype Column =
    | ID | CreatedAt | UpdatedAt | DeletedAt | Name | Notes | Platform | Type | Credentials | Extra | ProxyID
    | ProxyFallbackOriginID | Concurrency | LoadFactor | Priority | RateMultiplier | Status | ErrorMessage
    | LastUsedAt | ExpiresAt | AutoPauseOnExpired | Schedulable | RateLimitedAt | RateLimitResetAt | OverloadUntil
    | TempUnschedulableUntil | TempUnschedulableReason | SessionWindowStart | SessionWindowEnd | SessionWindowStatus
    | Other(name: string)

  /** `account.Columns`. */
  const COLUMNS: seq<Column> := [
    ID, CreatedAt, UpdatedAt, DeletedAt, Name, Notes, Platform, Type, Credentials, Extra, ProxyID,
    ProxyFallbackOriginID, Concurrency, LoadFactor, Priority, RateMultiplier, Status, ErrorMessage, LastUsedAt,
    ExpiresAt, AutoPauseOnExpired, Schedulable, RateLimitedAt, RateLimitResetAt, OverloadUntil,
    TempUnschedulableUntil, TempUnschedulableReason, SessionWindowStart, SessionWindowEnd, SessionWindowStatus]

  datatype Kind = KInt | KTime | KStr | KBool | KFloat | KBytes | KUnknown

  /** A scanned holder: None is SQL NULL, and NULL bytes are the empty slice. */
  datatype Cell =
    | IntCell(i: Option<int>)
    | TimeCell(t: Option<Time>)
    | StrCell(s: Option<string>)
    | BoolCell(b: Option<bool>)
    | FloatCell(f: Option<real>)
    | BytesCell(bytes: seq<bv8>)
    | UnknownCell(raw: int)

  function KindOf(v: Cell): Kind {
    match v
    case IntCell(_) => KInt
    case TimeCell(_) => KTime
    case StrCell(_) => KStr
    case BoolCell(_) => KBool
    case FloatCell(_) => KFloat
    case BytesCell(_) => KBytes
    case UnknownCell(_) => KUnknown
  }

  /** The content of a field; pointers in the source are options, and a nil map is document 0. */
  datatype Content =
    | IntV(i: Option<int>)
    | TimeV(t: Option<Time>)
    | StrV(s: Option<string>)
    | BoolV(b: Option<bool>)
    | FloatV(f: Option<real>)
    | DocV(doc: Doc)
    | SelectedV(v: Option<Cell>)

  type Account = map<Column, Content>

  /** `json.Marshal` and `json.Unmarshal` of a document. */
  datatype Codec = Codec(enc: Doc -> seq<bv8>, dec: seq<bv8> -> Option<Doc>)

  ghost predicate Faithful(codec: Codec) {
    forall doc :: codec.enc(doc) != [] && codec.dec(codec.enc(doc)) == Some(doc)
  }

  // ------------------------------------------------------------------ the tables

  /** The holder `scanValues` allocates for a column. */
  function HolderKind(c: Column): Kind {
    match c
    case Credentials | Extra => KBytes
    case AutoPauseOnExpired | Schedulable => KBool
    case RateMultiplier => KFloat
    case ID | ProxyID | ProxyFallbackOriginID | Concurrency | LoadFactor | Priority => KInt
    case Name | Notes | Platform | Type | Status | ErrorMessage | TempUnschedulableReason | SessionWindowStatus => KStr
    case CreatedAt | UpdatedAt | DeletedAt | LastUsedAt | ExpiresAt | RateLimitedAt | RateLimitResetAt | OverloadUntil |
      TempUnschedulableUntil | SessionWindowStart | SessionWindowEnd => KTime
    case Other(_) => KUnknown
  }

  /** The holder `assignValues` asserts for a column; it asserts none for unknown columns. */
  function AssertedKind(c: Column): Kind {
    match c
    case ID => KInt
    case CreatedAt => KTime
    case UpdatedAt => KTime
    case DeletedAt => KTime
    case Name => KStr
    case Notes => KStr
    case Platform => KStr
    case Type => KStr
    case Credentials => KBytes
    case Extra => KBytes
    case ProxyID => KInt
    case ProxyFallbackOriginID => KInt
    case Concurrency => KInt
    case LoadFactor => KInt
    case Priority => KInt
    case RateMultiplier => KFloat
    case Status => KStr
    case ErrorMessage => KStr
    case LastUsedAt => KTime
    case ExpiresAt => KTime
    case AutoPauseOnExpired => KBool
    case Schedulable => KBool
    case RateLimitedAt => KTime
    case RateLimitResetAt => KTime
    case OverloadUntil => KTime
    case TempUnschedulableUntil => KTime
    case TempUnschedulableReason => KStr
    case SessionWindowStart => KTime
    case SessionWindowEnd => KTime
    case SessionWindowStatus => KStr
    case Other(_) => KUnknown
  }

  /** The columns whose field is a pointer, so that NULL is a value of its own. */
  predicate Nullable(c: Column) {
    match c
    case DeletedAt | Notes | ProxyID | ProxyFallbackOriginID | LoadFactor | ErrorMessage | LastUsedAt | ExpiresAt |
      RateLimitedAt | RateLimitResetAt | OverloadUntil | TempUnschedulableUntil | TempUnschedulableReason |
      SessionWindowStart | SessionWindowEnd | SessionWindowStatus => true
    case _ => false
  }

  /** The zero value of a field. */
  function Zero(c: Column): Content {
    match AssertedKind(c)
    case KInt => IntV(if Nullable(c) then None else Some(0))
    case KTime => TimeV(if Nullable(c) then None else Some(0))
    case KStr => StrV(if Nullable(c) then None else Some(""))
    case KBool => BoolV(Some(false))
    case KFloat => FloatV(Some(0.0))
    case KBytes => DocV(0)
    case KUnknown => SelectedV(None)
  }

  function Read(a: Account, c: Column): Content { if c in a then a[c] else Zero(c) }

  /** Structural equality of entities. */
  ghost predicate SameEntity(a: Account, b: Account) {
    forall c :: Read(a, c) == Read(b, c)
  }

  // ------------------------------------------------------------------ scan and assign

  method ScanValues(columns: seq<Column>) returns (kinds: seq<Kind>)
    ensures |kinds| == |columns| && forall i :: 0 <= i < |columns| ==> kinds[i] == HolderKind(columns[i])
  {
    kinds := [];
    for i := 0 to |columns|
      invariant |kinds| == i && forall j :: 0 <= j < i ==> kinds[j] == HolderKind(columns[j])
    {
      kinds := kinds + [HolderKind(columns[i])];
    }
  }

  datatype Assigned = Done(account: Account) | Mismatch | BadJson | TooFewValues

  /** What a holder of the asserted kind says about its field: None for NULL, which leaves the field alone. */
  function Told(codec: Codec, c: Column, v: Cell): Result<Option<Content>, Assigned> {
    if c.Other? then Success(Some(SelectedV(Some(v))))
    else if KindOf(v) != AssertedKind(c) then Failure(Mismatch)
    else match v
      case IntCell(x) => Success(if x.Some? then Some(IntV(x)) else if c == ID then Some(IntV(Some(0))) else None)
      case TimeCell(x) => Success(if x.Some? then Some(TimeV(x)) else None)
      case StrCell(x) => Success(if x.Some? then Some(StrV(x)) else None)
      case BoolCell(x) => Success(if x.Some? then Some(BoolV(x)) else None)
      case FloatCell(x) => Success(if x.Some? then Some(FloatV(x)) else None)
      case BytesCell(bytes) =>
        if bytes == [] then Success(None)
        else (match codec.dec(bytes) case None => Failure(BadJson) case Some(doc) => Success(Some(DocV(doc))))
      case UnknownCell(_) => Failure(Mismatch)
  }

  /** One iteration of `assignValues`. */
  function AssignOne(codec: Codec, a: Account, c: Column, v: Cell): Assigned {
    match Told(codec, c, v)
    case Failure(error) => error
    case Success(None) => Done(a)
    case Success(Some(content)) => Done(a[c := content])
  }

  function Assign(codec: Codec, columns: seq<Column>, values: seq<Cell>): Assigned
    requires |columns| <= |values|
  {
    if columns == [] then Done(map[])
    else
      var n := |columns| - 1;
      match Assign(codec, columns[..n], values)
      case Done(a) => AssignOne(codec, a, columns[n], values[n])
      case error => error
  }

  lemma {:induction false} ErrorStays(codec: Codec, columns: seq<Column>, values: seq<Cell>, i: nat)
    requires i <= |columns| <= |values| && !Assign(codec, columns[..i], values).Done?
    ensures Assign(codec, columns, values) == Assign(codec, columns[..i], values)
  {
    if i == |columns| {
      assert columns[..i] == columns;
    } else {
      assert columns[..|columns| - 1][..i] == columns[..i];
      ErrorStays(codec, columns[..|columns| - 1], values, i);
    }
  }

  lemma AssignSnoc(codec: Codec, columns: seq<Column>, values: seq<Cell>, n: nat)
    requires 0 < n <= |columns| <= |values|
    ensures Assign(codec, columns[..n], values) ==
              match Assign(codec, columns[..n - 1], values)
              case Done(a) => AssignOne(codec, a, columns[n - 1], values[n - 1])
              case error => error
  {
    assert columns[..n][..n - 1] == columns[..n - 1];
  }

  method AssignValues(codec: Codec, columns: seq<Column>, values: seq<Cell>) returns (r: Assigned)
    ensures r == if |values| < |columns| then TooFewValues else Assign(codec, columns, values)
  {
    if |values| < |columns| {
      return TooFewValues;
    }
    r := Done(map[]);
    for i := 0 to |columns|
      invariant r.Done? && r == Assign(codec, columns[..i], values)
    {
      assert columns[..i + 1][..i] == columns[..i];
      r := AssignOne(codec, r.account, columns[i], values[i]);
      if !r.Done? {
        ErrorStays(codec, columns, values, i + 1);
        return;
      }
    }
    assert columns[..|columns|] == columns;
  }

  // ------------------------------------------------------------------ decoding

  /** The two tables agree, column by column. */
  lemma ScanFitsAssign(c: Column)
    ensures !c.Other? ==> HolderKind(c) == AssertedKind(c) && HolderKind(c) != KUnknown
  {
  }

  lemma AssignOneFits(codec: Codec, a: Account, c: Column, v: Cell)
    requires KindOf(v) == HolderKind(c)
    ensures var r := AssignOne(codec, a, c, v);
            && (r.Done? || r == BadJson)
            && (r.Done? <==> Told(codec, c, v).Success?)
  {
  }

  ghost predicate Scannable(columns: seq<Column>, values: seq<Cell>) {
    |columns| == |values| && forall i :: 0 <= i < |columns| ==> KindOf(values[i]) == HolderKind(columns[i])
  }

  ghost predicate AllTold(codec: Codec, columns: seq<Column>, values: seq<Cell>, n: nat)
    requires n <= |columns| <= |values|
  {
    forall i :: 0 <= i < n ==> Told(codec, columns[i], values[i]).Success?
  }

  lemma ToldSnoc(codec: Codec, columns: seq<Column>, values: seq<Cell>, n: nat)
    requires 0 < n <= |columns| <= |values|
    ensures AllTold(codec, columns, values, n) <==>
              AllTold(codec, columns, values, n - 1) && Told(codec, columns[n - 1], values[n - 1]).Success?
  {
  }

  /** For every list of columns, holders made by the scan never mismatch; only malformed JSON can fail. */
  lemma {:induction false} NeverMismatch(codec: Codec, columns: seq<Column>, values: seq<Cell>, n: nat)
    requires Scannable(columns, values) && n <= |columns|
    ensures var r := Assign(codec, columns[..n], values);
            && (r.Done? || r == BadJson)
            && (r.Done? <==> AllTold(codec, columns, values, n))
  {
    if n == 0 {
    } else {
      NeverMismatch(codec, columns, values, n - 1);
      var before := Assign(codec, columns[..n - 1], values);
      AssignSnoc(codec, columns, values, n);
      ToldSnoc(codec, columns, values, n);
      if before.Done? {
        AssignOneFits(codec, before.account, columns[n - 1], values[n - 1]);
      }
    }
  }

  /** So decoding succeeds exactly when every document that is not NULL is well-formed JSON. */
  lemma DecodesExactlyWhen(codec: Codec, columns: seq<Column>, values: seq<Cell>)
    requires Scannable(columns, values)
    ensures Assign(codec, columns, values).Done? <==>
            forall i :: 0 <= i < |values| && values[i].BytesCell? && values[i].bytes != [] ==> codec.dec(values[i].bytes).Some?
    ensures !Assign(codec, columns, values).Done? ==> Assign(codec, columns, values) == BadJson
  {
    assert columns[..|columns|] == columns;
    NeverMismatch(codec, columns, values, |columns|);
    forall i | 0 <= i < |columns|
      ensures Told(codec, columns[i], values[i]).Success? <==>
              (values[i].BytesCell? && values[i].bytes != [] ==> codec.dec(values[i].bytes).Some?)
    {
      ScanFitsAssign(columns[i]);
    }
  }

  /** Among the first n columns, field `c` holds what its own column said, or was not written. */
  ghost predicate ReadsFrom(codec: Codec, columns: seq<Column>, values: seq<Cell>, n: nat, c: Column, a: Account)
    requires n <= |columns| <= |values|
  {
    && (forall i :: 0 <= i < n && columns[i] == c ==>
          Told(codec, c, values[i]).Success? &&
          Read(a, c) == (var told := Told(codec, c, values[i]).value; if told.Some? then told.value else Zero(c)))
    && (c !in columns[..n] ==> c !in a)
  }

  lemma ReadsStep(codec: Codec, columns: seq<Column>, values: seq<Cell>, n: nat, c: Column, before: Account, after: Account)
    requires 0 < n <= |columns| <= |values| && Distinct(columns) && ReadsFrom(codec, columns, values, n - 1, c, before)
    requires AssignOne(codec, before, columns[n - 1], values[n - 1]) == Done(after)
    ensures ReadsFrom(codec, columns, values, n, c, after)
  {
    assert columns[..n] == columns[..n - 1] + [columns[n - 1]];
    if columns[n - 1] == c {
      assert c !in columns[..n - 1];
      assert Told(codec, c, values[n - 1]).Success?;
    }
  }

  /** With distinct columns, every field holds what its own column said, and every other field its zero value. */
  lemma {:induction false} AssignReads(codec: Codec, columns: seq<Column>, values: seq<Cell>, n: nat, c: Column)
    requires |columns| <= |values| && n <= |columns| && Distinct(columns) && Assign(codec, columns[..n], values).Done?
    ensures ReadsFrom(codec, columns, values, n, c, Assign(codec, columns[..n], values).account)
  {
    if n == 0 {
    } else {
      AssignSnoc(codec, columns, values, n);
      AssignReads(codec, columns, values, n - 1, c);
      ReadsStep(codec, columns, values, n, c, Assign(codec, columns[..n - 1], values).account, Assign(codec, columns[..n], values).account);
    }
  }

  /** The same pairs of column and value, in any order. */
  ghost predicate SamePairs(columns: seq<Column>, values: seq<Cell>, columns': seq<Column>, values': seq<Cell>)
    requires |columns| == |values| && |columns'| == |values'|
  {
    && (forall i :: 0 <= i < |columns| ==> Pair(columns', values', columns[i], values[i]))
    && (forall i :: 0 <= i < |columns'| ==> Pair(columns, values, columns'[i], values'[i]))
  }

  ghost predicate Pair(columns: seq<Column>, values: seq<Cell>, c: Column, v: Cell)
    requires |columns| == |values|
  {
    exists i :: 0 <= i < |columns| && columns[i] == c && values[i] == v
  }

  /**
   * With distinct columns, permuting columns and values together changes neither whether
   * decoding succeeds nor the entity it yields.
   */
  lemma AssignOrderIrrelevant(codec: Codec, columns: seq<Column>, values: seq<Cell>, columns': seq<Column>, values': seq<Cell>)
    requires Scannable(columns, values) && Scannable(columns', values') && Distinct(columns) && Distinct(columns')
    requires SamePairs(columns, values, columns', values')
    ensures Assign(codec, columns, values).Done? <==> Assign(codec, columns', values').Done?
    ensures Assign(codec, columns, values).Done? ==>
              SameEntity(Assign(codec, columns, values).account, Assign(codec, columns', values').account)
  {
    assert columns[..|columns|] == columns && columns'[..|columns'|] == columns';
    NeverMismatch(codec, columns, values, |columns|);
    NeverMismatch(codec, columns', values', |columns'|);
    ToldTogether(codec, columns, values, columns', values');
    if Assign(codec, columns, values).Done? {
      forall c ensures Read(Assign(codec, columns, values).account, c) == Read(Assign(codec, columns', values').account, c) {
        ReadsTogether(codec, columns, values, columns', values', c);
      }
    }
  }

  lemma AssignReadsAt(codec: Codec, columns: seq<Column>, values: seq<Cell>, i: nat)
    requires |columns| == |values| && i < |columns| && Distinct(columns) && Assign(codec, columns, values).Done?
    ensures Told(codec, columns[i], values[i]).Success?
    ensures var told := Told(codec, columns[i], values[i]).value;
            Read(Assign(codec, columns, values).account, columns[i]) == if told.Some? then told.value else Zero(columns[i])
  {
    assert columns[..|columns|] == columns;
    AssignReads(codec, columns, values, |columns|, columns[i]);
  }

  /** A column outside the table is kept as scanned; NULL leaves the zero value. */
  lemma SelectedAndNull(codec: Codec, columns: seq<Column>, values: seq<Cell>, i: nat)
    requires Scannable(columns, values) && i < |columns| && Distinct(columns) && Assign(codec, columns, values).Done?
    ensures columns[i].Other? ==> Read(Assign(codec, columns, values).account, columns[i]) == SelectedV(Some(values[i]))
    ensures values[i] in {IntCell(None), TimeCell(None), StrCell(None), BoolCell(None), FloatCell(None), BytesCell([])} && !columns[i].Other? ==>
              Read(Assign(codec, columns, values).account, columns[i]) == Zero(columns[i])
  {
    AssignReadsAt(codec, columns, values, i);
  }

  lemma UnfetchedReadsZero(codec: Codec, columns: seq<Column>, values: seq<Cell>, c: Column)
    requires |columns| == |values| && Distinct(columns) && Assign(codec, columns, values).Done? && c !in columns
    ensures Read(Assign(codec, columns, values).account, c) == Zero(c)
  {
    assert columns[..|columns|] == columns;
    AssignReads(codec, columns, values, |columns|, c);
  }

  lemma ToldTogether(codec: Codec, columns: seq<Column>, values: seq<Cell>, columns': seq<Column>, values': seq<Cell>)
    requires |columns| == |values| && |columns'| == |values'| && SamePairs(columns, values, columns', values')
    ensures AllTold(codec, columns, values, |columns|) <==> AllTold(codec, columns', values', |columns'|)
  {
  }

  lemma ReadsTogether(codec: Codec, columns: seq<Column>, values: seq<Cell>, columns': seq<Column>, values': seq<Cell>, c: Column)
    requires |columns| == |values| && |columns'| == |values'| && Distinct(columns) && Distinct(columns')
    requires SamePairs(columns, values, columns', values')
    requires Assign(codec, columns, values).Done? && Assign(codec, columns', values').Done?
    ensures Read(Assign(codec, columns, values).account, c) == Read(Assign(codec, columns', values').account, c)
  {
    if c in columns {
      var i :| 0 <= i < |columns| && columns[i] == c;
      assert Pair(columns', values', columns[i], values[i]);
      var j :| 0 <= j < |columns'| && columns'[j] == c && values'[j] == values[i];
      AssignReadsAt(codec, columns, values, i);
      AssignReadsAt(codec, columns', values', j);
    } else {
      assert forall i :: 0 <= i < |columns'| ==> Pair(columns, values, columns'[i], values'[i]);
      UnfetchedReadsZero(codec, columns, values, c);
      UnfetchedReadsZero(codec, columns', values', c);
    }
  }

  // ------------------------------------------------------------------ the shifted scan of a many-to-many load

  /** The rewritten `ScanValues`: one more integer holder for the join column, the entity's own for the rest. */
  function JoinKinds(columns: seq<Column>): seq<Kind>
    requires columns != []
  {
    [KInt] + seq(|columns| - 1, i requires 0 <= i < |columns| - 1 => HolderKind(columns[i + 1]))
  }

  /** What the rewritten `Assign` reads from a row; None when a type assertion panics. */
  function JoinRow(codec: Codec, columns: seq<Column>, values: seq<Cell>): Option<(int, int, Assigned)>
    requires |columns| == |values| && |columns| >= 2
  {
    if !values[0].IntCell? || !values[1].IntCell? then None
    else
      var int64 := (x: Option<int>) => if x.Some? then x.value else 0;
      Some((int64(values[0].i), int64(values[1].i), Assign(codec, columns[1..], values[1..])))
  }

  /** `(*sql.NullInt64).Int64`: NULL reads as 0. */
  function Int64(v: Cell): int {
    if v.IntCell? && v.i.Some? then v.i.value else 0
  }

  /** An ID column that comes first and once decides the ID of the entity. */
  lemma {:induction false} FirstColumnIsID(codec: Codec, columns: seq<Column>, values: seq<Cell>, n: nat)
    requires 0 < n <= |columns| <= |values| && columns[0] == ID && ID !in columns[1..] && Assign(codec, columns[..n], values).Done?
    ensures values[0].IntCell? && Read(Assign(codec, columns[..n], values).account, ID) == IntV(Some(Int64(values[0])))
  {
    AssignSnoc(codec, columns, values, n);
    if n == 1 {
      assert columns[..0] == [];
    } else {
      FirstColumnIsID(codec, columns, values, n - 1);
      assert columns[n - 1] in columns[1..];
    }
  }

  /**
   * With the ID as the first entity column and only there, as every query spec puts it, the
   * shifted scan never panics, reads the join key from the first value and the ID from the
   * second, and decodes the entity as the plain scan of the same columns does.
   */
  lemma ShiftedScan(codec: Codec, join: Column, columns: seq<Column>, key: Cell, values: seq<Cell>)
    requires columns != [] && columns[0] == ID && ID !in columns[1..] && |values| == |columns|
    requires var all, kinds := [key] + values, JoinKinds([join] + columns); forall i :: 0 <= i < |all| ==> KindOf(all[i]) == kinds[i]
    ensures var row := JoinRow(codec, [join] + columns, [key] + values);
            && Scannable(columns, values) && key.IntCell? && values[0].IntCell?
            && row.Some? && row.value.2 == Assign(codec, columns, values)
            && row.value.0 == (if key.i.Some? then key.i.value else 0)
            && row.value.1 == (if values[0].i.Some? then values[0].i.value else 0)
            && (row.value.2.Done? ==> Read(row.value.2.account, ID) == IntV(Some(row.value.1)))
  {
    var all, kinds := [key] + values, JoinKinds([join] + columns);
    forall i | 0 <= i < |columns| ensures KindOf(values[i]) == HolderKind(columns[i]) {
      assert all[i + 1] == values[i] && kinds[i + 1] == HolderKind(columns[i]);
    }
    assert KindOf(all[0]) == KInt && KindOf(values[0]) == KInt;
    assert ([join] + columns)[1..] == columns && all[1..] == values;
    if Assign(codec, columns, values).Done? {
      assert columns[..|columns|] == columns;
      FirstColumnIsID(codec, columns, values, |columns|);
    }
  }
}
