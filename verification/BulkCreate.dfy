/**
 * The mutator chain behind the bulk `Save` of a create builder.
 *
 * Closure i checks builder i, takes over the mutation it was handed, builds node i and
 * spec i and calls mutator i+1; the last closure issues the one batch insert, and
 * outcomes unwind backwards through the hooks. Mutations are Go pointers that hooks may
 * edit in place or replace, so the model keeps an explicit store of mutation objects and
 * hands pointers (indices into it) around.
 *
 * F is the set of fields of a mutation, N the entity built from them, S the insert spec.
 */
module BulkCreate {
  import opened Prelude

  /** What a mutator returns, as far as the chain looks at it: the error, or none. */
  datatype Outcome = Ok | Err(msg: string)

  /** The mutation a hook hands to `next`: the one it was given, or a new object. */
  datatype Pass<!F> = Same | Fresh(make: F -> F)

  /** One call of `next`: edit the given mutation in place, then hand one over. */
  datatype Call<!F> = Call(edit: F -> F, pass: Pass<F>)

  /**
   * A hook as data: its calls of `next`, what it still does to the given mutation afterwards
   * (or instead, if it makes none), and its own result from theirs.
   */
  datatype Hook<!F> = Hook(calls: seq<Call<F>>, finish: (seq<Outcome>, F) -> F, result: seq<Outcome> -> Outcome)

  datatype Mutation<F> = Mutation(fields: F, done: bool, id: Option<int>)

  datatype Node<N> = Node(entity: N, id: int)

  /** What the driver does with a batch: store it and report row IDs, or fail. */
  datatype Batch = Stored(ids: nat -> Option<int>) | Failed(msg: string)

  /** Everything fixed during one `Save`; `hasId` is false for edge schemas without an ID column. */
  datatype Chain<!F, !N, !S> = Chain(
    hooks: seq<seq<Hook<F>>>,
    check: F -> Outcome,
    node: F -> N,
    spec: F -> S,
    hasId: bool,
    batch: (nat, seq<Option<S>>) -> Batch)

  /** The variables the closures share; `log` lists the batches handed to the driver. */
  datatype State<F, N, S> = State(
    store: seq<Mutation<F>>,
    current: seq<nat>,
    nodes: seq<Option<Node<N>>>,
    specs: seq<Option<S>>,
    specIds: seq<Option<int>>,
    log: seq<seq<Option<S>>>)

  ghost predicate Wf<F, N, S>(c: Chain<F, N, S>, s: State<F, N, S>) {
    && |s.current| == |s.nodes| == |s.specs| == |s.specIds| == |c.hooks|
    && forall k :: 0 <= k < |s.current| ==> s.current[k] < |s.store|
  }

  /** `s'` is well formed again and lost neither mutation objects nor nodes of `s`. */
  ghost predicate Grows<F, N, S>(c: Chain<F, N, S>, s: State<F, N, S>, s': State<F, N, S>) {
    && Wf(c, s')
    && |s.nodes| == |s'.nodes|
    && |s.store| <= |s'.store|
    && forall k :: 0 <= k < |s.nodes| && s.nodes[k].Some? ==> s'.nodes[k].Some?
  }

  // ---------------------------------------------------------------- the run as a function

  function Edited<F, N, S>(s: State<F, N, S>, m: nat, edit: F -> F): State<F, N, S>
    requires m < |s.store|
  {
    s.(store := s.store[m := s.store[m].(fields := edit(s.store[m].fields))])
  }

  function Handed<F, N, S>(s: State<F, N, S>, m: nat, pass: Pass<F>): (r: (State<F, N, S>, nat))
    requires m < |s.store|
    ensures r.1 < |r.0.store|
  {
    match pass
    case Same => (s, m)
    case Fresh(make) => (s.(store := s.store + [Mutation(make(s.store[m].fields), false, None)]), |s.store|)
  }

  /** A hook returns, given the outcomes of its calls. */
  function Returned<F, N, S>(s: State<F, N, S>, hook: Hook<F>, m: nat, outcomes: seq<Outcome>): (State<F, N, S>, Outcome)
    requires m < |s.store|
  {
    (Edited(s, m, f => hook.finish(outcomes, f)), hook.result(outcomes))
  }

  /** Mutator i from its hook h on, called with mutation pointer m. */
  ghost function RunHooks<F, N, S>(c: Chain<F, N, S>, s: State<F, N, S>, i: nat, h: nat, m: nat)
    : (r: (State<F, N, S>, Outcome))
    requires Wf(c, s) && i < |c.hooks| && h <= |c.hooks[i]| && m < |s.store|
    ensures Grows(c, s, r.0)
    decreases |c.hooks| - i, |c.hooks[i]| - h, 1, 0
  {
    if h == |c.hooks[i]| then RunInner(c, s, i, m)
    else
      var r := RunCalls(c, s, i, h, m, 0);
      Returned(r.0, c.hooks[i][h], m, r.1)
  }

  /** The calls of `next` that hook h of builder i makes, from its call j on. */
  ghost function RunCalls<F, N, S>(c: Chain<F, N, S>, s: State<F, N, S>, i: nat, h: nat, m: nat, j: nat)
    : (r: (State<F, N, S>, seq<Outcome>))
    requires Wf(c, s) && i < |c.hooks| && h < |c.hooks[i]| && j <= |c.hooks[i][h].calls| && m < |s.store|
    ensures Grows(c, s, r.0)
    decreases |c.hooks| - i, |c.hooks[i]| - h, 0, |c.hooks[i][h].calls| - j
  {
    if j == |c.hooks[i][h].calls| then (s, [])
    else
      var call := c.hooks[i][h].calls[j];
      var given := Handed(Edited(s, m, call.edit), m, call.pass);
      var r := RunHooks(c, given.0, i, h + 1, given.1);
      var rest := RunCalls(c, r.0, i, h, m, j + 1);
      (rest.0, [r.1] + rest.1)
  }

  /** The closure under the hooks of builder i. */
  ghost function RunInner<F, N, S>(c: Chain<F, N, S>, s: State<F, N, S>, i: nat, m: nat)
    : (r: (State<F, N, S>, Outcome))
    requires Wf(c, s) && i < |c.hooks| && m < |s.store|
    ensures Grows(c, s, r.0)
    decreases |c.hooks| - i, 0, 0, 0
  {
    var checked := c.check(s.store[s.current[i]].fields);
    if checked.Err? then (s, checked)
    else
      var r := RunRest(c, Built(c, s, i, m), i);
      if r.1.Err? then r else (Finished(c, r.0, i, m), Ok)
  }

  /** What closure i calls: the next mutator, or the driver. */
  ghost function RunRest<F, N, S>(c: Chain<F, N, S>, s: State<F, N, S>, i: nat): (r: (State<F, N, S>, Outcome))
    requires Wf(c, s) && i < |c.hooks|
    ensures Grows(c, s, r.0)
    decreases |c.hooks| - i - 1, if i < |c.hooks| - 1 then |c.hooks[i + 1]| else 0, 2, 0
  {
    if i < |c.hooks| - 1 then RunHooks(c, s, i + 1, 0, s.current[i + 1]) else RunBatch(c, s)
  }

  /** `builder.mutation = mutation` and `createSpec`. */
  function Built<F, N, S>(c: Chain<F, N, S>, s: State<F, N, S>, i: nat, m: nat): (s': State<F, N, S>)
    requires Wf(c, s) && i < |c.hooks| && m < |s.store|
    ensures Grows(c, s, s') && s'.nodes[i].Some?
  {
    var f := s.store[m].fields;
    s.(current := s.current[i := m],
       nodes := s.nodes[i := Some(Node(c.node(f), 0))],
       specs := s.specs[i := Some(c.spec(f))],
       specIds := s.specIds[i := None])
  }

  function RunBatch<F, N, S>(c: Chain<F, N, S>, s: State<F, N, S>): (r: (State<F, N, S>, Outcome))
    requires Wf(c, s)
    ensures Grows(c, s, r.0)
  {
    var s1 := s.(log := s.log + [s.specs]);
    match c.batch(|s.log|, s.specs)
    case Failed(msg) => (s1, Err(msg))
    case Stored(ids) => (s1.(specIds := seq(|s.specIds|, k requires 0 <= k => ids(k))), Ok)
  }

  /** After a nil error: `mutation.id`, the node's ID and `mutation.done`. */
  function Finished<F, N, S>(c: Chain<F, N, S>, s: State<F, N, S>, i: nat, m: nat): (s': State<F, N, S>)
    requires Wf(c, s) && i < |c.hooks| && m < |s.store| && s.nodes[i].Some?
    ensures Grows(c, s, s')
  {
    var built := s.nodes[i].value;
    var id := if c.hasId && s.specIds[i].Some? then s.specIds[i].value else built.id;
    s.(nodes := s.nodes[i := Some(built.(id := id))],
       store := s.store[m := s.store[m].(done := true, id := if c.hasId then Some(id) else s.store[m].id)])
  }

  /** The shared variables as `Save` sets them up, after `defaults` ran on every builder. */
  function Start<F, N, S>(fields: seq<F>, defaults: F -> F): State<F, N, S> {
    State(seq(|fields|, i requires 0 <= i < |fields| => Mutation(defaults(fields[i]), false, None)),
          seq(|fields|, i requires 0 <= i => i),
          seq(|fields|, i requires 0 <= i => None),
          seq(|fields|, i requires 0 <= i => None),
          seq(|fields|, i requires 0 <= i => None),
          [])
  }

  ghost function RunSave<F, N, S>(c: Chain<F, N, S>, fields: seq<F>, defaults: F -> F): (r: (State<F, N, S>, Outcome))
    requires |fields| == |c.hooks|
    ensures Wf(c, r.0)
  {
    var s: State<F, N, S> := Start(fields, defaults);
    if |fields| > 0 then RunHooks(c, s, 0, 0, 0) else (s, Ok)
  }

  // ---------------------------------------------------------------- the run as the code performs it

  /** One `Save` in progress: the slices its closures share and update in place. */
  class Saver<F, N, S> {
    const c: Chain<F, N, S>
    var store: seq<Mutation<F>>
    var current: seq<nat>
    var nodes: seq<Option<Node<N>>>
    var specs: seq<Option<S>>
    var specIds: seq<Option<int>>
    var log: seq<seq<Option<S>>>

    ghost function View(): State<F, N, S>
      reads this
    {
      State(store, current, nodes, specs, specIds, log)
    }

    constructor (c: Chain<F, N, S>, fields: seq<F>, defaults: F -> F)
      requires |fields| == |c.hooks|
      ensures this.c == c && View() == Start(fields, defaults) && Wf(c, View())
    {
      this.c := c;
      store, log := [], [];
      current, nodes, specs, specIds := [], [], [], [];
      new;
      for i := 0 to |fields|
        invariant |store| == |current| == |nodes| == |specs| == |specIds| == i && log == []
        invariant forall k :: 0 <= k < i ==> store[k] == Mutation(defaults(fields[k]), false, None) && current[k] == k
        invariant forall k :: 0 <= k < i ==> nodes[k].None? && specs[k].None? && specIds[k].None?
      {
        store := store + [Mutation(defaults(fields[i]), false, None)];
        current, nodes, specs, specIds := current + [i], nodes + [None], specs + [None], specIds + [None];
      }
      assert View() == Start(fields, defaults);
    }

    /** `mutators[i].Mutate(ctx, m)` from hook h on. */
    method Mutate(i: nat, h: nat, m: nat) returns (o: Outcome)
      requires Wf(c, View()) && i < |c.hooks| && h <= |c.hooks[i]| && m < |store|
      modifies this
      ensures (View(), o) == old(RunHooks(c, View(), i, h, m))
      decreases |c.hooks| - i, |c.hooks[i]| - h, 1, 0
    {
      if h == |c.hooks[i]| {
        o := Inner(i, m);
        return;
      }
      var outcomes := CallFrom(i, h, m, 0);
      store := store[m := store[m].(fields := c.hooks[i][h].finish(outcomes, store[m].fields))];
      o := c.hooks[i][h].result(outcomes);
    }

    /** The calls of `next` by hook h, from call j on. */
    method CallFrom(i: nat, h: nat, m: nat, j: nat) returns (outcomes: seq<Outcome>)
      requires Wf(c, View()) && i < |c.hooks| && h < |c.hooks[i]| && j <= |c.hooks[i][h].calls| && m < |store|
      modifies this
      ensures (View(), outcomes) == old(RunCalls(c, View(), i, h, m, j))
      decreases |c.hooks| - i, |c.hooks[i]| - h, 0, |c.hooks[i][h].calls| - j + 1
    {
      outcomes := [];
      if j < |c.hooks[i][h].calls| {
        var one := CallNext(i, h, m, j);
        var rest := CallFrom(i, h, m, j + 1);
        outcomes := [one] + rest;
      }
    }

    /** Call j of `next` by hook h: edit the mutation, hand it or a new one over. */
    method CallNext(i: nat, h: nat, m: nat, j: nat) returns (o: Outcome)
      requires Wf(c, View()) && i < |c.hooks| && h < |c.hooks[i]| && j < |c.hooks[i][h].calls| && m < |store|
      modifies this
      ensures var call := c.hooks[i][h].calls[j];
              var given := Handed(Edited(old(View()), m, call.edit), m, call.pass);
              (View(), o) == RunHooks(c, given.0, i, h + 1, given.1)
      decreases |c.hooks| - i, |c.hooks[i]| - h, 0, 0
    {
      var call := c.hooks[i][h].calls[j];
      store := store[m := store[m].(fields := call.edit(store[m].fields))];
      var given := m;
      if call.pass.Fresh? {
        given := |store|;
        store := store + [Mutation(call.pass.make(store[m].fields), false, None)];
      }
      o := Mutate(i, h + 1, given);
    }

    /** The closure under the hooks of builder i. */
    method Inner(i: nat, m: nat) returns (o: Outcome)
      requires Wf(c, View()) && i < |c.hooks| && m < |store|
      modifies this
      ensures (View(), o) == old(RunInner(c, View(), i, m))
      decreases |c.hooks| - i, 0, 0, 0
    {
      o := c.check(store[current[i]].fields);
      if o.Err? {
        return;
      }
      ghost var built := Built(c, View(), i, m);
      current := current[i := m];
      nodes := nodes[i := Some(Node(c.node(store[m].fields), 0))];
      specs := specs[i := Some(c.spec(store[m].fields))];
      specIds := specIds[i := None];
      assert View() == built;
      if i < |c.hooks| - 1 {
        o := Mutate(i + 1, 0, current[i + 1]);
      } else {
        o := InsertBatch();
      }
      assert (View(), o) == RunRest(c, built, i);
      if o.Ok? {
        var node := nodes[i].value;
        var id := if c.hasId && specIds[i].Some? then specIds[i].value else node.id;
        nodes := nodes[i := Some(node.(id := id))];
        store := store[m := store[m].(done := true, id := if c.hasId then Some(id) else store[m].id)];
      }
    }

    /** `sqlgraph.BatchCreate`. */
    method InsertBatch() returns (o: Outcome)
      requires Wf(c, View())
      modifies this
      ensures (View(), o) == old(RunBatch(c, View()))
    {
      var answer := c.batch(|log|, specs);
      log := log + [specs];
      match answer
      case Failed(msg) => o := Err(msg);
      case Stored(ids) =>
        specIds := seq(|specIds|, k requires 0 <= k => ids(k));
        o := Ok;
    }
  }

  /** `Save`: a bulk builder that carries an error returns it before it touches any mutation. */
  method Save<F, N, S>(c: Chain<F, N, S>, err: Option<string>, fields: seq<F>, defaults: F -> F)
    returns (saver: Saver<F, N, S>, o: Outcome)
    requires |fields| == |c.hooks|
    ensures fresh(saver) && saver.c == c
    ensures err.Some? ==> o == Err(err.value) && saver.log == [] && |saver.store| == |saver.nodes| == |fields|
    ensures err.Some? ==> forall k :: 0 <= k < |fields| ==> saver.store[k] == Mutation(fields[k], false, None) && saver.nodes[k].None?
    ensures err.None? ==> (saver.View(), o) == RunSave(c, fields, defaults)
  {
    if err.Some? {
      saver := new Saver(c, fields, f => f);
      assert saver.store == saver.View().store && saver.nodes == saver.View().nodes;
      return saver, Err(err.value);
    }
    saver := new Saver(c, fields, defaults);
    o := Ok;
    if |fields| > 0 {
      o := saver.Mutate(0, 0, saver.current[0]);
    }
  }
}
