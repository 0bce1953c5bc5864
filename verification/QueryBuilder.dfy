/**
 * Query builders as mutable objects: a builder owns a context, Go slices with spare
 * capacity and the builders of its eager-loaded edges. `Clone` copies all of it, so that
 * the original and the clone can be changed independently although `append` writes into
 * shared backing arrays whenever there is room.
 *
 * Predicates, order terms, interceptors, row-lock modifiers and columns are tokens. The
 * generated builders differ in their edges only; edges are numbered per builder.
 */
module QueryBuilder {
  import opened Prelude

  type Token = int

  // ------------------------------------------------------------------ Go slices

  /** A slice header: its backing array (whose length is the capacity) and its length. */
  datatype Slice = Slice(arr: array<Token>, len: nat)

  ghost predicate ValidSlice(s: Slice) {
    s.len <= s.arr.Length
  }

  ghost function Contents(s: Slice): seq<Token>
    requires ValidSlice(s)
    reads s.arr
  {
    s.arr[..s.len]
  }

  /** `append(s, xs...)`: in place when the capacity suffices, else into a larger new array. */
  method Append(s: Slice, xs: seq<Token>) returns (r: Slice)
    requires ValidSlice(s)
    modifies s.arr
    ensures ValidSlice(r) && Contents(r) == old(Contents(s)) + xs
    ensures if s.len + |xs| <= s.arr.Length then r.arr == s.arr else fresh(r.arr)
    ensures r.arr == s.arr ==> forall i :: s.len + |xs| <= i < s.arr.Length ==> s.arr[i] == old(s.arr[i])
  {
    var n := s.len + |xs|;
    var arr := s.arr;
    if n > s.arr.Length {
      arr := new Token[2 * n];
      forall i | 0 <= i < s.len {
        arr[i] := s.arr[i];
      }
    }
    forall i | 0 <= i < |xs| {
      arr[s.len + i] := xs[i];
    }
    r := Slice(arr, n);
  }

  /** A slice in an array of its own, as a literal or `append([]T{}, xs...)` makes it. */
  method SliceOf(xs: seq<Token>) returns (r: Slice)
    ensures ValidSlice(r) && Contents(r) == xs && fresh(r.arr)
  {
    var arr := new Token[|xs|](i requires 0 <= i < |xs| => xs[i]);
    r := Slice(arr, |xs|);
  }

  // ------------------------------------------------------------------ what a builder means

  /** The abstract value of a builder. */
  datatype Meaning = Meaning(
    limit: Option<int>, offset: Option<int>, unique: Option<bool>, fields: seq<Token>,
    order: seq<Token>, inters: seq<Token>, predicates: seq<Token>, modifiers: seq<Token>,
    path: Option<Token>, edges: seq<Option<Meaning>>)

  /**
   * A builder call. `Lock` is ForUpdate or ForShare, which on Postgres also turns DISTINCT
   * off. `With` carries the new child's shape and the calls its options make on it.
   */
  datatype Op =
    | Where(ps: seq<Token>)
    | Order(os: seq<Token>)
    | Select(cols: seq<Token>)
    | Limit(n: int)
    | Offset(n: int)
    | Unique(b: bool)
    | Lock(modifier: Token, postgres: bool)
    | With(edge: nat, width: nat, inters: seq<Token>, calls: seq<Op>)

  /** A builder fresh from its client. */
  function NewMeaning(width: nat, inters: seq<Token>, path: Option<Token>): Meaning {
    Meaning(None, None, None, [], [], inters, [], [], path, seq(width, i requires 0 <= i => None))
  }

  function Apply(m: Meaning, op: Op): Meaning
    decreases op, 0
  {
    match op
    case Where(ps) => m.(predicates := m.predicates + ps)
    case Order(os) => m.(order := m.order + os)
    case Select(cols) => m.(fields := m.fields + cols)
    case Limit(n) => m.(limit := Some(n))
    case Offset(n) => m.(offset := Some(n))
    case Unique(b) => m.(unique := Some(b))
    case Lock(modifier, postgres) =>
      m.(modifiers := m.modifiers + [modifier], unique := if postgres then Some(false) else m.unique)
    case With(edge, width, inters, calls) =>
      if edge < |m.edges| then m.(edges := m.edges[edge := Some(ApplyAll(NewMeaning(width, inters, None), calls))]) else m
  }

  function ApplyAll(m: Meaning, ops: seq<Op>): Meaning
    decreases ops, 1
  {
    if ops == [] then m else Apply(ApplyAll(m, ops[..|ops| - 1]), ops[|ops| - 1])
  }

  /** `m` without its row-lock modifiers, at every level: what `Clone` copies. */
  function Unlocked(m: Meaning): Meaning {
    m.(modifiers := [], edges := seq(|m.edges|, i requires 0 <= i < |m.edges| => UnlockedEdge(m.edges[i])))
  }

  function UnlockedEdge(c: Option<Meaning>): Option<Meaning> {
    match c
    case None => None
    case Some(m) => Some(Unlocked(m))
  }

  /** `Unlocked(m)` with only its first i edges. */
  function ClonedUpTo(m: Meaning, i: nat): Meaning {
    Unlocked(m).(edges := seq(|m.edges|, j requires 0 <= j < |m.edges| => if j < i then UnlockedEdge(m.edges[j]) else None))
  }

  lemma ClonedStep(m: Meaning, i: nat)
    requires i < |m.edges|
    ensures ClonedUpTo(m, i + 1) == ClonedUpTo(m, i).(edges := ClonedUpTo(m, i).edges[i := UnlockedEdge(m.edges[i])])
  {
  }

  // ------------------------------------------------------------------ the builder object

  /** `QueryContext`. */
  class Context {
    var limit: Option<int>
    var offset: Option<int>
    var unique: Option<bool>
    var fields: Slice

    constructor (limit: Option<int>, offset: Option<int>, unique: Option<bool>, fields: Slice)
      ensures this.limit == limit && this.offset == offset && this.unique == unique && this.fields == fields
    {
      this.limit, this.offset, this.unique, this.fields := limit, offset, unique, fields;
    }
  }

  /** Five valid slices in five different arrays. */
  ghost predicate Apart(f: Slice, o: Slice, ins: Slice, p: Slice, m: Slice) {
    && ValidSlice(f) && ValidSlice(o) && ValidSlice(ins) && ValidSlice(p) && ValidSlice(m)
    && f.arr !in {o.arr, ins.arr, p.arr, m.arr}
    && o.arr !in {ins.arr, p.arr, m.arr}
    && ins.arr !in {p.arr, m.arr}
    && p.arr != m.arr
  }

  class Query {
    ghost var Repr: set<object>
    var ctx: Context
    var order: Slice
    var inters: Slice
    var predicates: Slice
    var modifiers: Slice
    const path: Option<Token>
    var edges: seq<Query?>

    /** The objects that belong to this builder itself and not to a nested one. */
    ghost function Own(): set<object>
      reads this, ctx
    {
      {this, ctx, ctx.fields.arr, order.arr, inters.arr, predicates.arr, modifiers.arr}
    }

    ghost predicate OwnValid()
      reads this, ctx
    {
      Apart(ctx.fields, order, inters, predicates, modifiers)
    }

    /** Builders form a finite tree whose nodes share nothing. */
    ghost predicate Valid()
      reads this, Repr
      decreases Repr
    {
      && this in Repr && ctx in Repr && Own() <= Repr && OwnValid()
      && (forall i :: 0 <= i < |edges| && edges[i] != null ==>
            && edges[i] in Repr && edges[i].Repr < Repr && edges[i].Repr !! Own() && edges[i].Valid())
      && (forall i, j :: 0 <= i < j < |edges| && edges[i] != null && edges[j] != null ==> edges[i].Repr !! edges[j].Repr)
    }

    ghost function View(): Meaning
      requires Valid()
      reads this, Repr
      decreases Repr
    {
      Meaning(ctx.limit, ctx.offset, ctx.unique, Contents(ctx.fields),
              Contents(order), Contents(inters), Contents(predicates), Contents(modifiers), path,
              seq(|edges|, i requires 0 <= i < |edges| && Valid() reads this, Repr =>
                if edges[i] == null then None else Some(edges[i].View())))
    }

    constructor Assemble(ctx: Context, order: Slice, inters: Slice, predicates: Slice, modifiers: Slice, path: Option<Token>, width: nat,
                         ghost parts: set<object>)
      requires Apart(ctx.fields, order, inters, predicates, modifiers)
      requires {ctx, ctx.fields.arr, order.arr, inters.arr, predicates.arr, modifiers.arr} <= parts
      ensures Valid() && Repr == parts + {this}
      ensures View() == Meaning(ctx.limit, ctx.offset, ctx.unique, Contents(ctx.fields), Contents(order), Contents(inters),
                                Contents(predicates), Contents(modifiers), path, seq(width, i requires 0 <= i => None))
    {
      this.ctx, this.path, this.edges := ctx, path, seq(width, i => null);
      this.order, this.inters, this.predicates, this.modifiers := order, inters, predicates, modifiers;
      Repr := parts + {this};
      new;
      assert Valid();
      assert View().edges == seq(width, i requires 0 <= i => None);
    }

    /** A context and four slices with these contents, every slice in an array of its own. */
    static method FreshParts(limit: Option<int>, offset: Option<int>, unique: Option<bool>, fields: seq<Token>,
                             order: seq<Token>, inters: seq<Token>, predicates: seq<Token>)
      returns (ctx: Context, o: Slice, ins: Slice, p: Slice, m: Slice, ghost parts: set<object>)
      ensures Apart(ctx.fields, o, ins, p, m)
      ensures ctx.limit == limit && ctx.offset == offset && ctx.unique == unique && Contents(ctx.fields) == fields
      ensures Contents(o) == order && Contents(ins) == inters && Contents(p) == predicates && Contents(m) == []
      ensures {ctx, ctx.fields.arr, o.arr, ins.arr, p.arr, m.arr} <= parts && fresh(parts)
    {
      var f := SliceOf(fields);
      o := SliceOf(order);
      ins := SliceOf(inters);
      p := SliceOf(predicates);
      m := SliceOf([]);
      ctx := new Context(limit, offset, unique, f);
      parts := {ctx, f.arr, o.arr, ins.arr, p.arr, m.arr};
    }

    /** A new builder with these contents, every slice in an array of its own and every edge nil. */
    static method Flat(limit: Option<int>, offset: Option<int>, unique: Option<bool>, fields: seq<Token>, order: seq<Token>,
                       inters: seq<Token>, predicates: seq<Token>, path: Option<Token>, width: nat) returns (q: Query)
      ensures q.Valid() && fresh(q.Repr)
      ensures q.View() == Meaning(limit, offset, unique, fields, order, inters, predicates, [], path, seq(width, i requires 0 <= i => None))
    {
      var ctx, o, ins, p, m, parts := FreshParts(limit, offset, unique, fields, order, inters, predicates);
      q := new Query.Assemble(ctx, o, ins, p, m, path, width, parts);
    }

    /** `client.Query()`; `inters` are the client's interceptors. */
    static method New(width: nat, inters: seq<Token>, path: Option<Token>) returns (q: Query)
      ensures q.Valid() && fresh(q.Repr)
      ensures q.View() == Meaning(None, None, None, [], [], inters, [], [], path, seq(width, i requires 0 <= i => None))
    {
      q := Flat(None, None, None, [], [], inters, [], path, width);
    }

    /** Nothing that belongs to a nested builder changed, so the nested builders mean what they meant. */
    twostate lemma EdgesKept()
      requires old(Valid()) && edges == old(edges)
      requires forall o: object :: old(allocated(o)) && o in old(Repr) && o !in old(Own()) ==> unchanged(o)
      ensures forall i :: 0 <= i < |edges| && edges[i] != null ==>
                edges[i].Repr == old(edges[i].Repr) && edges[i].Valid() && edges[i].View() == old(edges[i].View())
    {
    }

    /** A builder none of whose objects changed means what it meant. */
    twostate lemma Kept()
      requires old(Valid()) && forall o :: o in old(Repr) ==> unchanged(o)
      ensures Valid() && Repr == old(Repr) && View() == old(View())
    {
    }

    method Where(ps: seq<Token>)
      requires Valid()
      modifies Repr
      ensures Valid() && fresh(Repr - old(Repr))
      ensures View() == old(View()).(predicates := old(View()).predicates + ps)
    {
      predicates := Append(predicates, ps);
      Repr := Repr + {predicates.arr};
      EdgesKept();
      assert View().edges == old(View()).edges;
    }

    method OrderBy(os: seq<Token>)
      requires Valid()
      modifies Repr
      ensures Valid() && fresh(Repr - old(Repr))
      ensures View() == old(View()).(order := old(View()).order + os)
    {
      order := Append(order, os);
      Repr := Repr + {order.arr};
      EdgesKept();
      assert View().edges == old(View()).edges;
    }

    method SelectFields(cols: seq<Token>)
      requires Valid()
      modifies Repr
      ensures Valid() && fresh(Repr - old(Repr))
      ensures View() == old(View()).(fields := old(View()).fields + cols)
    {
      var fields := Append(ctx.fields, cols);
      ctx.fields := fields;
      Repr := Repr + {fields.arr};
      EdgesKept();
      assert View().edges == old(View()).edges;
    }

    /** Limit, Offset and Unique write one field of the context. */
    method SetContext(limit: Option<int>, offset: Option<int>, unique: Option<bool>)
      requires Valid()
      modifies Repr
      ensures Valid() && Repr == old(Repr)
      ensures View() == old(View()).(limit := limit, offset := offset, unique := unique)
    {
      ctx.limit, ctx.offset, ctx.unique := limit, offset, unique;
      EdgesKept();
      assert View().edges == old(View()).edges;
    }

    /** `ForUpdate` and `ForShare`. */
    method AddLock(modifier: Token, postgres: bool)
      requires Valid()
      modifies Repr
      ensures Valid() && fresh(Repr - old(Repr))
      ensures View() == old(View()).(modifiers := old(View()).modifiers + [modifier],
                                     unique := if postgres then Some(false) else old(View()).unique)
    {
      if postgres {
        ctx.unique := Some(false);
      }
      modifiers := Append(modifiers, [modifier]);
      Repr := Repr + {modifiers.arr};
      assert OwnValid();
      EdgesKept();
      assert Valid();
      assert View().edges == old(View()).edges;
    }

    /** `_q.withX = query`. */
    method Attach(edge: nat, child: Query)
      requires Valid() && child.Valid() && Repr !! child.Repr && edge < |edges|
      modifies this
      ensures Valid() && Repr == old(Repr) + child.Repr
      ensures View() == old(View()).(edges := old(View()).edges[edge := Some(child.View())])
    {
      edges := edges[edge := child];
      Repr := Repr + child.Repr;
      SiblingsKept();
      assert child.Valid() && child.View() == old(child.View());
      assert View().edges == old(View()).edges[edge := Some(child.View())];
    }

    /** When a builder changes only itself, the builders that were nested in it mean what they meant. */
    twostate lemma SiblingsKept()
      requires old(Valid()) && forall o: object :: o in old(Repr) && o != this ==> unchanged(o)
      ensures forall i :: 0 <= i < |old(edges)| && old(edges)[i] != null ==>
                var e := old(edges)[i]; e.Repr == old(e.Repr) && e.Valid() && e.View() == old(e.View())
    {
      forall i | 0 <= i < |old(edges)| && old(edges)[i] != null
        ensures var e := old(edges)[i]; e.Repr == old(e.Repr) && e.Valid() && e.View() == old(e.View())
      {
        assert this !in old(edges[i].Repr);
      }
    }

    /** One builder call. */
    method Do(op: Op)
      requires Valid()
      modifies Repr
      ensures Valid() && fresh(Repr - old(Repr))
      ensures View() == Apply(old(View()), op)
      decreases op, 0
    {
      match op
      case Where(ps) => Where(ps);
      case Order(os) => OrderBy(os);
      case Select(cols) => SelectFields(cols);
      case Limit(n) => SetContext(Some(n), ctx.offset, ctx.unique);
      case Offset(n) => SetContext(ctx.limit, Some(n), ctx.unique);
      case Unique(b) => SetContext(ctx.limit, ctx.offset, Some(b));
      case Lock(modifier, postgres) => AddLock(modifier, postgres);
      case With(edge, width, inters, calls) =>
        if edge < |edges| {
          WithEdge(edge, width, inters, calls);
        }
    }

    /** `WithX(opts...)`: a new child builder, configured by the options, replaces the edge's builder. */
    method WithEdge(edge: nat, width: nat, inters: seq<Token>, calls: seq<Op>)
      requires Valid() && edge < |edges|
      modifies this
      ensures Valid() && fresh(Repr - old(Repr))
      ensures View() == old(View()).(edges := old(View()).edges[edge := Some(ApplyAll(NewMeaning(width, inters, None), calls))])
      decreases calls, 3
    {
      var child := Configured(width, inters, calls);
      Attach(edge, child);
    }

    /** A new builder after the calls that a With* option list makes on it. */
    static method Configured(width: nat, inters: seq<Token>, calls: seq<Op>) returns (child: Query)
      ensures child.Valid() && fresh(child.Repr)
      ensures child.View() == ApplyAll(NewMeaning(width, inters, None), calls)
      decreases calls, 2
    {
      child := New(width, inters, None);
      child.DoAll(calls);
    }

    method DoAll(ops: seq<Op>)
      requires Valid()
      modifies Repr
      ensures Valid() && fresh(Repr - old(Repr))
      ensures View() == ApplyAll(old(View()), ops)
      decreases ops, 1
    {
      for i := 0 to |ops|
        invariant Valid() && fresh(Repr - old(Repr))
        invariant View() == ApplyAll(old(View()), ops[..i])
      {
        assert ops[..i + 1][..i] == ops[..i];
        Do(ops[i]);
      }
      assert ops[..|ops|] == ops;
    }

    /** The builder's meaning as the query execution reads it off the objects. */
    method Snapshot() returns (m: Meaning)
      requires Valid()
      ensures m == View()
      decreases Repr
    {
      var children: seq<Option<Meaning>> := [];
      for i := 0 to |edges|
        invariant |children| == i
        invariant forall j :: 0 <= j < i ==> children[j] == View().edges[j]
      {
        var child := None;
        if edges[i] != null {
          var below := edges[i].Snapshot();
          child := Some(below);
        }
        children := children + [child];
      }
      assert children == View().edges;
      m := Meaning(ctx.limit, ctx.offset, ctx.unique, ctx.fields.arr[..ctx.fields.len], order.arr[..order.len],
                   inters.arr[..inters.len], predicates.arr[..predicates.len], modifiers.arr[..modifiers.len], path, children);
    }

    /** The copied context and slices of `Clone`, with every edge still nil. */
    method CloneOwn() returns (c: Query)
      requires Valid()
      ensures c.Valid() && fresh(c.Repr)
      ensures c.View() == ClonedUpTo(View(), 0)
    {
      c := Flat(ctx.limit, ctx.offset, ctx.unique, ctx.fields.arr[..ctx.fields.len], order.arr[..order.len],
                inters.arr[..inters.len], predicates.arr[..predicates.len], path, |edges|);
      assert ClonedUpTo(View(), 0).edges == seq(|edges|, i requires 0 <= i => None);
    }

    /** `_q.withX.Clone()`, which is nil on a nil edge. */
    method CloneChild(i: nat) returns (child: Query?)
      requires Valid() && i < |edges|
      ensures Valid() && View() == old(View())
      ensures child == null <==> View().edges[i] == None
      ensures child != null ==> child.Valid() && fresh(child.Repr) && Some(child.View()) == UnlockedEdge(View().edges[i])
      decreases Repr, 0
    {
      child := null;
      if edges[i] != null {
        child := edges[i].Clone();
      }
    }

    /** This builder, a clone of `m` up to edge i, takes over the clone of edge i. */
    method TakeChild(ghost m: Meaning, i: nat, child: Query?)
      requires Valid() && i < |m.edges| && View() == ClonedUpTo(m, i)
      requires child == null <==> m.edges[i] == None
      requires child != null ==> child.Valid() && Repr !! child.Repr && Some(child.View()) == UnlockedEdge(m.edges[i])
      modifies this
      ensures Valid() && Repr == old(Repr) + (if child == null then {} else child.Repr)
      ensures View() == ClonedUpTo(m, i + 1)
    {
      ClonedStep(m, i);
      if child != null {
        Attach(i, child);
      } else {
        assert ClonedUpTo(m, i).edges == ClonedUpTo(m, i).edges[i := None];
      }
    }

    /** One edge of `Clone`. */
    method CloneEdge(c: Query, i: nat)
      requires Valid() && c.Valid() && Repr !! c.Repr && i < |edges| && c.View() == ClonedUpTo(View(), i)
      modifies c
      ensures Valid() && Repr == old(Repr) && View() == old(View())
      ensures c.Valid() && c.View() == ClonedUpTo(View(), i + 1)
      ensures forall o :: o in c.Repr ==> o in old(c.Repr) || fresh(o)
      decreases Repr, 1
    {
      ghost var v := View();
      var child := CloneChild(i);
      label Cloned:
      assert c !in Repr;
      c.TakeChild(v, i, child);
      Kept@Cloned();
    }

    /** The edges of `Clone` from i on. */
    method CloneRest(c: Query, i: nat)
      requires Valid() && c.Valid() && Repr !! c.Repr && i <= |edges| && c.View() == ClonedUpTo(View(), i)
      modifies c
      ensures Valid() && View() == old(View())
      ensures c.Valid() && c.View() == Unlocked(View())
      ensures forall o :: o in c.Repr ==> o in old(c.Repr) || fresh(o)
      decreases Repr, 2, |edges| - i
    {
      if i < |edges| {
        CloneEdge(c, i);
        assert Repr !! c.Repr;
        CloneRest(c, i + 1);
      } else {
        assert ClonedUpTo(View(), i).edges == Unlocked(View()).edges;
      }
    }

    /** `Clone`: the same builder in objects of its own; row-lock modifiers are not copied. */
    method Clone() returns (c: Query)
      requires Valid()
      ensures c.Valid() && fresh(c.Repr) && Valid()
      ensures View() == old(View()) && c.View() == Unlocked(View())
      decreases Repr, 3
    {
      c := CloneOwn();
      CloneRest(c, 0);
    }
  }
}
