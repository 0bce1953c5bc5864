/**
 * What every run of the bulk mutator chain guarantees, for any number of builders, any
 * hooks, any checks and any driver.
 */
module BulkCreateTheorems {
  import opened Prelude
  import opened BulkCreate

  // ------------------------------------------------------------------ closed forms

  ghost predicate AtMostOnce<F, N, S>(c: Chain<F, N, S>) {
    forall i, h :: 0 <= i < |c.hooks| && 0 <= h < |c.hooks[i]| ==> |c.hooks[i][h].calls| <= 1
  }

  /** From hook h on, every hook calls `next`. */
  ghost predicate Passes<F>(hooks: seq<Hook<F>>, h: nat) {
    forall k :: h <= k < |hooks| ==> hooks[k].calls != []
  }

  /** The fields of the builder's own mutation when the closure under the hooks from h on runs. */
  function OwnFields<F>(hooks: seq<Hook<F>>, h: nat, f: F): F
    decreases |hooks| - h
  {
    if h >= |hooks| || hooks[h].calls == [] then f
    else
      var call := hooks[h].calls[0];
      if call.pass.Same? then OwnFields(hooks, h + 1, call.edit(f)) else call.edit(f)
  }

  /** The fields of the mutation that reaches the closure under the hooks from h on. */
  function SentFields<F>(hooks: seq<Hook<F>>, h: nat, f: F): F
    decreases |hooks| - h
  {
    if h >= |hooks| || hooks[h].calls == [] then f
    else
      var call := hooks[h].calls[0];
      var edited := call.edit(f);
      SentFields(hooks, h + 1, if call.pass.Same? then edited else call.pass.make(edited))
  }

  /**
   * What a run will use: the fields each check sees, the batch and the entities. The slots
   * of builders before the one that is entered are already filled.
   */
  datatype Plan<F, N, S> = Plan(own: seq<F>, batch: seq<Option<S>>, entities: seq<Option<N>>)

  function Entity<N>(node: Option<Node<N>>): Option<N> {
    if node.None? then None else Some(node.value.entity)
  }

  function Entities<F, N, S>(s: State<F, N, S>): seq<Option<N>> {
    seq(|s.nodes|, k requires 0 <= k < |s.nodes| => Entity(s.nodes[k]))
  }

  /** The fields that reach closure k, with builder i entered at hook h with mutation m. */
  function Sent<F, N, S>(c: Chain<F, N, S>, s: State<F, N, S>, i: nat, h: nat, m: nat, k: nat): F
    requires i <= k < |c.hooks| <= |s.store| && m < |s.store|
  {
    if k == i then SentFields(c.hooks[i], h, s.store[m].fields) else SentFields(c.hooks[k], 0, s.store[k].fields)
  }

  /** The fields that check k sees. */
  function Own<F, N, S>(c: Chain<F, N, S>, s: State<F, N, S>, i: nat, h: nat, m: nat, k: nat): F
    requires i < |c.hooks| <= |s.store| && m < |s.store| && k < |c.hooks|
  {
    if k == i && m == i then OwnFields(c.hooks[i], h, s.store[i].fields)
    else if k > i then OwnFields(c.hooks[k], 0, s.store[k].fields)
    else s.store[k].fields
  }

  function PlanOf<F, N, S>(c: Chain<F, N, S>, s: State<F, N, S>, i: nat, h: nat, m: nat): (p: Plan<F, N, S>)
    requires i < |c.hooks| <= |s.store| && m < |s.store| && |s.specs| == |s.nodes| == |c.hooks|
    ensures |p.own| == |p.batch| == |p.entities| == |c.hooks|
  {
    Plan(seq(|c.hooks|, k requires 0 <= k < |c.hooks| => Own(c, s, i, h, m, k)),
         seq(|c.hooks|, k requires 0 <= k < |c.hooks| => if k < i then s.specs[k] else Some(c.spec(Sent(c, s, i, h, m, k)))),
         seq(|c.hooks|, k requires 0 <= k < |c.hooks| => if k < i then Entity(s.nodes[k]) else Some(c.node(Sent(c, s, i, h, m, k)))))
  }

  /** A run that reached closure k gets on to closure k+1. */
  ghost predicate GetsOn<F, N, S>(c: Chain<F, N, S>, own: seq<F>, k: nat)
    requires k + 1 < |c.hooks| == |own|
  {
    c.check(own[k]).Ok? && Passes(c.hooks[k + 1], 0)
  }

  /** A run that enters builder i at hook h reaches closure j. */
  ghost predicate Reaches<F, N, S>(c: Chain<F, N, S>, own: seq<F>, i: nat, h: nat, j: nat)
    requires i <= j < |c.hooks| == |own|
  {
    Passes(c.hooks[i], h) && forall k :: i <= k < j ==> GetsOn(c, own, k)
  }

  /** Such a run reaches the driver. */
  ghost predicate Issues<F, N, S>(c: Chain<F, N, S>, own: seq<F>, i: nat, h: nat)
    requires i < |c.hooks| == |own|
  {
    Reaches(c, own, i, h, |c.hooks| - 1) && c.check(own[|c.hooks| - 1]).Ok?
  }

  /** Builder i is entered for the first time with its own mutation or a fresh one; later builders are untouched. */
  ghost predicate Ready<F, N, S>(c: Chain<F, N, S>, s: State<F, N, S>, i: nat, m: nat) {
    && Wf(c, s) && i < |c.hooks| <= |s.store|
    && (m == i || |c.hooks| <= m < |s.store|)
    && !s.store[m].done
    && forall k :: i <= k < |c.hooks| ==> s.current[k] == k && !s.store[k].done
  }

  /** Mutator i changes no mutation but m and the later builders' own, and no slot before i. */
  ghost predicate Framed<F, N, S>(c: Chain<F, N, S>, s: State<F, N, S>, i: nat, m: nat, s': State<F, N, S>) {
    && Grows(c, s, s') && |s.current| == |s.specs| == |s'.current| == |s'.specs| == |c.hooks|
    && (forall p :: 0 <= p < |s.store| && p != m && !(i < p < |c.hooks|) ==> s'.store[p] == s.store[p])
    && (forall k :: i <= k < |c.hooks| ==> s'.current[k] == s.current[k] || (k == i && s'.current[k] == m) || |s.store| <= s'.current[k])
    && (forall k :: 0 <= k < i && k < |c.hooks| ==>
          s'.current[k] == s.current[k] && s'.nodes[k] == s.nodes[k] && s'.specs[k] == s.specs[k])
  }

  /** The whole effect of a run on the log and the slots: the planned batch and entities, or no batch. */
  ghost predicate Effect<F, N, S>(c: Chain<F, N, S>, p: Plan<F, N, S>, i: nat, h: nat, log: seq<seq<Option<S>>>, s': State<F, N, S>)
    requires i < |c.hooks| == |p.own| && Wf(c, s')
  {
    if Issues(c, p.own, i, h) then
      && s'.log == log + [p.batch] && s'.specs == p.batch && Entities(s') == p.entities
      && var b := c.batch(|log|, p.batch);
         b.Stored? ==> forall k :: 0 <= k < |c.hooks| ==> s'.specIds[k] == b.ids(k)
    else s'.log == log
  }

  // ------------------------------------------------------------------ one batch, exactly when, with what

  /** One hook that calls `next` once: the rest of the run starts ready and with the same plan. */
  lemma CallTransfer<F, N, S>(c: Chain<F, N, S>, s: State<F, N, S>, i: nat, h: nat, m: nat, s1: State<F, N, S>, m1: nat)
    requires AtMostOnce(c) && Ready(c, s, i, m) && h < |c.hooks[i]| && c.hooks[i][h].calls != []
    requires var call := c.hooks[i][h].calls[0]; (s1, m1) == Handed(Edited(s, m, call.edit), m, call.pass)
    ensures Ready(c, s1, i, m1) && s1.log == s.log
    ensures PlanOf(c, s, i, h, m) == PlanOf(c, s1, i, h + 1, m1)
  {
    var p, p1 := PlanOf(c, s, i, h, m), PlanOf(c, s1, i, h + 1, m1);
    assert forall k :: i <= k < |c.hooks| ==> Sent(c, s, i, h, m, k) == Sent(c, s1, i, h + 1, m1, k);
    assert p.own == p1.own && p.batch == p1.batch && p.entities == p1.entities;
  }

  lemma PassesOn<F, N, S>(c: Chain<F, N, S>, own: seq<F>, i: nat, h: nat, j: nat)
    requires i <= j < |c.hooks| == |own| && h < |c.hooks[i]| && c.hooks[i][h].calls != []
    ensures Reaches(c, own, i, h, j) <==> Reaches(c, own, i, h + 1, j)
  {
    assert Passes(c.hooks[i], h) <==> Passes(c.hooks[i], h + 1);
  }

  /** A hook that calls `next` once runs what lies under it exactly once. */
  lemma SingleCall<F, N, S>(c: Chain<F, N, S>, s: State<F, N, S>, i: nat, h: nat, m: nat, s1: State<F, N, S>, m1: nat)
    requires Wf(c, s) && i < |c.hooks| && h < |c.hooks[i]| && m < |s.store| && |c.hooks[i][h].calls| == 1
    requires var call := c.hooks[i][h].calls[0]; (s1, m1) == Handed(Edited(s, m, call.edit), m, call.pass)
    ensures Wf(c, s1) && m1 < |s1.store|
    ensures var r := RunHooks(c, s1, i, h + 1, m1);
            RunHooks(c, s, i, h, m) == Returned(r.0, c.hooks[i][h], m, [r.1])
  {
    var r := RunHooks(c, s1, i, h + 1, m1);
    assert RunCalls(c, r.0, i, h, m, 1) == (r.0, []);
    assert RunCalls(c, s, i, h, m, 0) == (r.0, [r.1] + []);
    assert [r.1] + [] == [r.1];
  }

  lemma {:induction false} HooksEffect<F, N, S>(c: Chain<F, N, S>, s: State<F, N, S>, i: nat, h: nat, m: nat)
    requires AtMostOnce(c) && Ready(c, s, i, m) && h <= |c.hooks[i]|
    ensures var s' := RunHooks(c, s, i, h, m).0;
            Framed(c, s, i, m, s') && Effect(c, PlanOf(c, s, i, h, m), i, h, s.log, s')
    decreases |c.hooks| - i, |c.hooks[i]| - h, 1
  {
    if h == |c.hooks[i]| {
      InnerEffect(c, s, i, m);
    } else if c.hooks[i][h].calls == [] {
      assert RunCalls(c, s, i, h, m, 0) == (s, []);
      assert !Passes(c.hooks[i], h);
    } else {
      var call := c.hooks[i][h].calls[0];
      var given := Handed(Edited(s, m, call.edit), m, call.pass);
      CallTransfer(c, s, i, h, m, given.0, given.1);
      SingleCall(c, s, i, h, m, given.0, given.1);
      HooksEffect(c, given.0, i, h + 1, given.1);
      var r := RunHooks(c, given.0, i, h + 1, given.1);
      ReturnFrames(c, s, i, h, m, given.0, given.1, r);
      ReturnKeeps(c, PlanOf(c, s, i, h, m), i, h, m, s.log, r);
    }
  }

  /** What a hook does after its call of `next` touches only the mutation it was given. */
  lemma ReturnFrames<F, N, S>(c: Chain<F, N, S>, s: State<F, N, S>, i: nat, h: nat, m: nat, s1: State<F, N, S>, m1: nat, r: (State<F, N, S>, Outcome))
    requires Ready(c, s, i, m) && h < |c.hooks[i]| && c.hooks[i][h].calls != []
    requires var call := c.hooks[i][h].calls[0]; (s1, m1) == Handed(Edited(s, m, call.edit), m, call.pass)
    requires Framed(c, s1, i, m1, r.0)
    ensures Framed(c, s, i, m, Returned(r.0, c.hooks[i][h], m, [r.1]).0)
  {
  }

  /** It changes neither the log nor the slots. */
  lemma ReturnKeeps<F, N, S>(c: Chain<F, N, S>, p: Plan<F, N, S>, i: nat, h: nat, m: nat, log: seq<seq<Option<S>>>, r: (State<F, N, S>, Outcome))
    requires i < |c.hooks| == |p.own| && h < |c.hooks[i]| && c.hooks[i][h].calls != []
    requires Wf(c, r.0) && m < |r.0.store| && Effect(c, p, i, h + 1, log, r.0)
    ensures Effect(c, p, i, h, log, Returned(r.0, c.hooks[i][h], m, [r.1]).0)
  {
    PassesOn(c, p.own, i, h, |c.hooks| - 1);
  }

  /** Behind closure i, whose check succeeded, lies what lies behind builder i+1. */
  lemma ReachesOn<F, N, S>(c: Chain<F, N, S>, own: seq<F>, i: nat, j: nat)
    requires i < j < |c.hooks| == |own| && c.check(own[i]).Ok?
    ensures Reaches(c, own, i, |c.hooks[i]|, j) <==> Reaches(c, own, i + 1, 0, j)
  {
    assert Passes(c.hooks[i], |c.hooks[i]|);
    assert GetsOn(c, own, i) <==> Passes(c.hooks[i + 1], 0);
  }

  /** The closure of builder i leaves builder i+1 ready, with the same plan; the last one has filled the plan. */
  lemma BuiltTransfer<F, N, S>(c: Chain<F, N, S>, s: State<F, N, S>, i: nat, m: nat)
    requires Ready(c, s, i, m)
    ensures var s1, p := Built(c, s, i, m), PlanOf(c, s, i, |c.hooks[i]|, m);
            && p.own[i] == s.store[i].fields && s1.log == s.log
            && if i == |c.hooks| - 1 then p.batch == s1.specs && p.entities == Entities(s1)
               else Ready(c, s1, i + 1, i + 1) && p == PlanOf(c, s1, i + 1, 0, i + 1)
  {
    var s1, p := Built(c, s, i, m), PlanOf(c, s, i, |c.hooks[i]|, m);
    assert Sent(c, s, i, |c.hooks[i]|, m, i) == s.store[m].fields;
    if i == |c.hooks| - 1 {
      assert p.batch == s1.specs && p.entities == Entities(s1);
    } else {
      var p1 := PlanOf(c, s1, i + 1, 0, i + 1);
      assert forall k :: i < k < |c.hooks| ==> Sent(c, s, i, |c.hooks[i]|, m, k) == Sent(c, s1, i + 1, 0, i + 1, k);
      assert p.own == p1.own && p.batch == p1.batch;
      assert Entity(s1.nodes[i]) == p.entities[i];
      assert p.entities == p1.entities;
    }
  }

  /** What mutator i+1, or the driver, left behind, seen from closure i. */
  ghost predicate SeenFrom<F, N, S>(c: Chain<F, N, S>, s: State<F, N, S>, i: nat, m: nat, s2: State<F, N, S>)
    requires Ready(c, s, i, m)
  {
    && Framed(c, s, i, m, s2) && Effect(c, PlanOf(c, s, i, |c.hooks[i]|, m), i, |c.hooks[i]|, s.log, s2)
    && s2.store[m] == s.store[m] && s2.current[i] == m && s2.nodes[i] == Built(c, s, i, m).nodes[i]
  }

  lemma LaterFrames<F, N, S>(c: Chain<F, N, S>, s: State<F, N, S>, i: nat, m: nat, s2: State<F, N, S>)
    requires Ready(c, s, i, m) && i < |c.hooks| - 1 && Framed(c, Built(c, s, i, m), i + 1, i + 1, s2)
    ensures Framed(c, s, i, m, s2)
    ensures s2.store[m] == s.store[m] && s2.current[i] == m && s2.nodes[i] == Built(c, s, i, m).nodes[i]
  {
    assert s2.store[m] == Built(c, s, i, m).store[m];
  }

  lemma {:induction false} RestEffect<F, N, S>(c: Chain<F, N, S>, s: State<F, N, S>, i: nat, m: nat)
    requires AtMostOnce(c) && Ready(c, s, i, m) && c.check(s.store[i].fields).Ok?
    ensures SeenFrom(c, s, i, m, RunRest(c, Built(c, s, i, m), i).0)
    decreases |c.hooks| - i - 1, if i < |c.hooks| - 1 then |c.hooks[i + 1]| else 0, 2
  {
    BuiltTransfer(c, s, i, m);
    if i < |c.hooks| - 1 {
      HooksEffect(c, Built(c, s, i, m), i + 1, 0, i + 1);
      LaterFrames(c, s, i, m, RunHooks(c, Built(c, s, i, m), i + 1, 0, i + 1).0);
      ReachesOn(c, PlanOf(c, s, i, |c.hooks[i]|, m).own, i, |c.hooks| - 1);
    } else {
      BatchEffect(c, s, i, m);
    }
  }

  lemma BatchEffect<F, N, S>(c: Chain<F, N, S>, s: State<F, N, S>, i: nat, m: nat)
    requires Ready(c, s, i, m) && c.check(s.store[i].fields).Ok? && i == |c.hooks| - 1
    ensures SeenFrom(c, s, i, m, RunBatch(c, Built(c, s, i, m)).0)
  {
    BuiltTransfer(c, s, i, m);
    assert Entities(RunBatch(c, Built(c, s, i, m)).0) == Entities(Built(c, s, i, m));
  }

  /** Marking builder i done changes neither the log nor what the slots carry. */
  lemma FinishKeeps<F, N, S>(c: Chain<F, N, S>, s: State<F, N, S>, i: nat, m: nat, s2: State<F, N, S>)
    requires Ready(c, s, i, m) && SeenFrom(c, s, i, m, s2)
    ensures var s' := Finished(c, s2, i, m);
            Framed(c, s, i, m, s') && Effect(c, PlanOf(c, s, i, |c.hooks[i]|, m), i, |c.hooks[i]|, s.log, s')
  {
    assert Entities(Finished(c, s2, i, m)) == Entities(s2);
  }

  lemma {:induction false} InnerEffect<F, N, S>(c: Chain<F, N, S>, s: State<F, N, S>, i: nat, m: nat)
    requires AtMostOnce(c) && Ready(c, s, i, m)
    ensures var s' := RunInner(c, s, i, m).0;
            Framed(c, s, i, m, s') && Effect(c, PlanOf(c, s, i, |c.hooks[i]|, m), i, |c.hooks[i]|, s.log, s')
    decreases |c.hooks| - i, 0, 0
  {
    BuiltTransfer(c, s, i, m);
    if c.check(s.store[i].fields).Ok? {
      RestEffect(c, s, i, m);
      FinishKeeps(c, s, i, m, RunRest(c, Built(c, s, i, m), i).0);
    } else {
      RefusedIssuesNothing(c, PlanOf(c, s, i, |c.hooks[i]|, m).own, i);
    }
  }

  lemma RefusedIssuesNothing<F, N, S>(c: Chain<F, N, S>, own: seq<F>, i: nat)
    requires i < |c.hooks| == |own| && c.check(own[i]).Err?
    ensures !Issues(c, own, i, |c.hooks[i]|)
  {
    if i < |c.hooks| - 1 {
      RefusedReachesNothing(c, own, i, |c.hooks| - 1);
    }
  }

  lemma RefusedReachesNothing<F, N, S>(c: Chain<F, N, S>, own: seq<F>, i: nat, j: nat)
    requires i < j < |c.hooks| == |own| && c.check(own[i]).Err?
    ensures !Reaches(c, own, i, |c.hooks[i]|, j)
  {
    assert !GetsOn(c, own, i);
  }

  // ------------------------------------------------------------------ outcomes and done marks

  /** What a builder's hooks from h on make of the outcome `o` of the closure under them. */
  function Surface<F>(hooks: seq<Hook<F>>, h: nat, o: Outcome): Outcome
    decreases |hooks| - h
  {
    if h >= |hooks| then o
    else if hooks[h].calls == [] then hooks[h].result([])
    else hooks[h].result([Surface(hooks, h + 1, o)])
  }

  function Reply(b: Batch): Outcome {
    match b
    case Stored(_) => Ok
    case Failed(msg) => Err(msg)
  }

  /** What closure i returns when the checks see `own` and the driver replies `b`. */
  function Below<F, N, S>(c: Chain<F, N, S>, own: seq<F>, i: nat, b: Outcome): Outcome
    requires i < |c.hooks| == |own|
    decreases |c.hooks| - i
  {
    var checked := c.check(own[i]);
    if checked.Err? then checked
    else if i == |c.hooks| - 1 then b
    else Surface(c.hooks[i + 1], 0, Below(c, own, i + 1, b))
  }

  ghost predicate DoneAt<F, N, S>(s: State<F, N, S>, j: nat)
    requires j < |s.current| && s.current[j] < |s.store|
  {
    s.store[s.current[j]].done
  }

  /** The ID slot j ends with when the driver answered `b`. */
  ghost function StoredId<F, N, S>(c: Chain<F, N, S>, b: Batch, j: nat): int
    requires b.Stored?
  {
    if c.hasId && b.ids(j).Some? then b.ids(j).value else 0
  }

  ghost predicate HasStoredId<F, N, S>(c: Chain<F, N, S>, s: State<F, N, S>, b: Batch, j: nat)
    requires j < |s.nodes| && b.Stored?
  {
    s.nodes[j].Some? && s.nodes[j].value.id == StoredId(c, b, j)
  }

  /** The mutation of slot j points at the ID of its node. */
  ghost predicate PointsAtId<F, N, S>(c: Chain<F, N, S>, s: State<F, N, S>, j: nat)
    requires j < |s.nodes| == |s.current| && s.current[j] < |s.store|
  {
    s.nodes[j].Some? && (c.hasId ==> s.store[s.current[j]].id == Some(s.nodes[j].value.id))
  }

  /**
   * How a run that enters builder i at hook h ends, when the checks see `own` and the driver
   * answers `b`: its outcome is the fold of the hooks over what lies under them; builder j is
   * done exactly when its closure was reached and returned no error; the mutation of a done
   * builder has the ID of its node; and after a stored batch that is what the driver reported.
   */
  ghost predicate EndsWith<F, N, S>(c: Chain<F, N, S>, own: seq<F>, i: nat, h: nat, b: Batch, r: (State<F, N, S>, Outcome))
    requires i < |c.hooks| == |own| && Wf(c, r.0)
  {
    && r.1 == Surface(c.hooks[i], h, Below(c, own, i, Reply(b)))
    && (forall j :: i <= j < |c.hooks| ==> (DoneAt(r.0, j) <==> Reaches(c, own, i, h, j) && Below(c, own, j, Reply(b)).Ok?))
    && (forall j :: i <= j < |c.hooks| && DoneAt(r.0, j) ==> PointsAtId(c, r.0, j))
    && (Issues(c, own, i, h) && b.Stored? ==>
          forall j :: i <= j < |c.hooks| && DoneAt(r.0, j) ==> HasStoredId(c, r.0, b, j))
  }

  /** The same after closure i called on, for the later builders. */
  ghost predicate EndsAfter<F, N, S>(c: Chain<F, N, S>, own: seq<F>, i: nat, b: Batch, r: (State<F, N, S>, Outcome))
    requires i < |c.hooks| == |own| && Wf(c, r.0)
  {
    var h := |c.hooks[i]|;
    && r.1 == Below(c, own, i, Reply(b))
    && (forall j :: i < j < |c.hooks| ==> (DoneAt(r.0, j) <==> Reaches(c, own, i, h, j) && Below(c, own, j, Reply(b)).Ok?))
    && (forall j :: i < j < |c.hooks| && DoneAt(r.0, j) ==> PointsAtId(c, r.0, j))
    && (Issues(c, own, i, h) && b.Stored? ==>
          forall j :: i < j < |c.hooks| && DoneAt(r.0, j) ==> HasStoredId(c, r.0, b, j))
  }

  lemma {:induction false} HooksEnd<F, N, S>(c: Chain<F, N, S>, s: State<F, N, S>, i: nat, h: nat, m: nat)
    requires AtMostOnce(c) && Ready(c, s, i, m) && h <= |c.hooks[i]|
    ensures var p := PlanOf(c, s, i, h, m); EndsWith(c, p.own, i, h, c.batch(|s.log|, p.batch), RunHooks(c, s, i, h, m))
    decreases |c.hooks| - i, |c.hooks[i]| - h, 1
  {
    if h == |c.hooks[i]| {
      InnerEnd(c, s, i, m);
    } else if c.hooks[i][h].calls == [] {
      SkipEnd(c, s, i, h, m);
    } else {
      var call := c.hooks[i][h].calls[0];
      var given := Handed(Edited(s, m, call.edit), m, call.pass);
      CallTransfer(c, s, i, h, m, given.0, given.1);
      HooksEnd(c, given.0, i, h + 1, given.1);
      CallEnd(c, s, i, h, m, given.0, given.1);
    }
  }

  lemma CallEnd<F, N, S>(c: Chain<F, N, S>, s: State<F, N, S>, i: nat, h: nat, m: nat, s1: State<F, N, S>, m1: nat)
    requires AtMostOnce(c) && Ready(c, s, i, m) && h < |c.hooks[i]| && c.hooks[i][h].calls != []
    requires var call := c.hooks[i][h].calls[0]; (s1, m1) == Handed(Edited(s, m, call.edit), m, call.pass)
    requires Ready(c, s1, i, m1)
    requires var p := PlanOf(c, s1, i, h + 1, m1); EndsWith(c, p.own, i, h + 1, c.batch(|s1.log|, p.batch), RunHooks(c, s1, i, h + 1, m1))
    ensures var p := PlanOf(c, s, i, h, m); EndsWith(c, p.own, i, h, c.batch(|s.log|, p.batch), RunHooks(c, s, i, h, m))
  {
    CallTransfer(c, s, i, h, m, s1, m1);
    SingleCall(c, s, i, h, m, s1, m1);
    var p, r := PlanOf(c, s, i, h, m), RunHooks(c, s1, i, h + 1, m1);
    ReturnEnd(c, p.own, i, h, m, c.batch(|s.log|, p.batch), r);
  }

  lemma SkipEnd<F, N, S>(c: Chain<F, N, S>, s: State<F, N, S>, i: nat, h: nat, m: nat)
    requires Ready(c, s, i, m) && h < |c.hooks[i]| && c.hooks[i][h].calls == []
    ensures var p := PlanOf(c, s, i, h, m); EndsWith(c, p.own, i, h, c.batch(|s.log|, p.batch), RunHooks(c, s, i, h, m))
  {
    assert RunCalls(c, s, i, h, m, 0) == (s, []);
    assert !Passes(c.hooks[i], h);
  }

  lemma ReturnEnd<F, N, S>(c: Chain<F, N, S>, own: seq<F>, i: nat, h: nat, m: nat, b: Batch, r: (State<F, N, S>, Outcome))
    requires i < |c.hooks| == |own| && h < |c.hooks[i]| && c.hooks[i][h].calls != []
    requires Wf(c, r.0) && m < |r.0.store| && EndsWith(c, own, i, h + 1, b, r)
    ensures EndsWith(c, own, i, h, b, Returned(r.0, c.hooks[i][h], m, [r.1]))
  {
    var s' := Returned(r.0, c.hooks[i][h], m, [r.1]).0;
    forall j | i <= j < |c.hooks| ensures Reaches(c, own, i, h, j) <==> Reaches(c, own, i, h + 1, j) {
      PassesOn(c, own, i, h, j);
    }
    assert forall j :: i <= j < |c.hooks| ==> (DoneAt(s', j) <==> DoneAt(r.0, j));
  }

  lemma {:induction false} RestEnd<F, N, S>(c: Chain<F, N, S>, s: State<F, N, S>, i: nat, m: nat)
    requires AtMostOnce(c) && Ready(c, s, i, m) && c.check(s.store[i].fields).Ok?
    ensures var p := PlanOf(c, s, i, |c.hooks[i]|, m);
            EndsAfter(c, p.own, i, c.batch(|s.log|, p.batch), RunRest(c, Built(c, s, i, m), i))
    decreases |c.hooks| - i - 1, if i < |c.hooks| - 1 then |c.hooks[i + 1]| else 0, 2
  {
    BuiltTransfer(c, s, i, m);
    if i < |c.hooks| - 1 {
      HooksEnd(c, Built(c, s, i, m), i + 1, 0, i + 1);
      var p := PlanOf(c, s, i, |c.hooks[i]|, m);
      LaterEnd(c, p.own, i, c.batch(|s.log|, p.batch), RunHooks(c, Built(c, s, i, m), i + 1, 0, i + 1));
    }
  }

  lemma LaterEnd<F, N, S>(c: Chain<F, N, S>, own: seq<F>, i: nat, b: Batch, r: (State<F, N, S>, Outcome))
    requires i < |c.hooks| - 1 && |own| == |c.hooks| && c.check(own[i]).Ok? && Wf(c, r.0)
    requires EndsWith(c, own, i + 1, 0, b, r)
    ensures EndsAfter(c, own, i, b, r)
  {
    forall j | i < j < |c.hooks| ensures Reaches(c, own, i, |c.hooks[i]|, j) <==> Reaches(c, own, i + 1, 0, j) {
      ReachesOn(c, own, i, j);
    }
  }

  /** The end of closure i: it marks builder i done exactly on a nil error. */
  lemma FinishEnd<F, N, S>(c: Chain<F, N, S>, own: seq<F>, i: nat, m: nat, b: Batch, r: (State<F, N, S>, Outcome))
    requires i < |c.hooks| == |own| && c.check(own[i]).Ok? && Wf(c, r.0) && m < |r.0.store| && EndsAfter(c, own, i, b, r)
    requires !r.0.store[m].done && r.0.current[i] == m && r.0.nodes[i].Some? && r.0.nodes[i].value.id == 0
    requires forall j :: i < j < |c.hooks| ==> r.0.current[j] != m
    requires Issues(c, own, i, |c.hooks[i]|) && b.Stored? ==> r.0.specIds[i] == b.ids(i)
    ensures EndsWith(c, own, i, |c.hooks[i]|, b, if r.1.Err? then r else (Finished(c, r.0, i, m), Ok))
  {
    assert Reaches(c, own, i, |c.hooks[i]|, i);
    if r.1.Ok? {
      var s' := Finished(c, r.0, i, m);
      assert forall j :: i < j < |c.hooks| ==> (DoneAt(s', j) <==> DoneAt(r.0, j)) && s'.nodes[j] == r.0.nodes[j];
    }
  }

  lemma {:induction false} InnerEnd<F, N, S>(c: Chain<F, N, S>, s: State<F, N, S>, i: nat, m: nat)
    requires AtMostOnce(c) && Ready(c, s, i, m)
    ensures var p := PlanOf(c, s, i, |c.hooks[i]|, m);
            EndsWith(c, p.own, i, |c.hooks[i]|, c.batch(|s.log|, p.batch), RunInner(c, s, i, m))
    decreases |c.hooks| - i, 0, 0
  {
    var p := PlanOf(c, s, i, |c.hooks[i]|, m);
    BuiltTransfer(c, s, i, m);
    if c.check(s.store[i].fields).Ok? {
      RestEffect(c, s, i, m);
      RestEnd(c, s, i, m);
      FinishEnd(c, p.own, i, m, c.batch(|s.log|, p.batch), RunRest(c, Built(c, s, i, m), i));
    } else {
      RefusedEnd(c, p.own, i, c.batch(|s.log|, p.batch), s);
    }
  }

  lemma RefusedEnd<F, N, S>(c: Chain<F, N, S>, own: seq<F>, i: nat, b: Batch, s: State<F, N, S>)
    requires i < |c.hooks| == |own| && c.check(own[i]).Err? && Wf(c, s)
    requires forall j :: i <= j < |c.hooks| ==> !DoneAt(s, j)
    ensures EndsWith(c, own, i, |c.hooks[i]|, b, (s, c.check(own[i])))
  {
    forall j | i < j < |c.hooks| ensures !Reaches(c, own, i, |c.hooks[i]|, j) {
      RefusedReachesNothing(c, own, i, j);
    }
  }

  // ------------------------------------------------------------------ main results, from a fresh Save

  function Defaulted<F>(fields: seq<F>, defaults: F -> F): seq<F> {
    seq(|fields|, i requires 0 <= i < |fields| => defaults(fields[i]))
  }

  /** What the checks see. */
  function AllOwn<F, N, S>(c: Chain<F, N, S>, full: seq<F>): (own: seq<F>)
    requires |full| == |c.hooks|
    ensures |own| == |full|
  {
    seq(|full|, k requires 0 <= k < |full| => OwnFields(c.hooks[k], 0, full[k]))
  }

  /** What reaches the closures. */
  function AllSent<F, N, S>(c: Chain<F, N, S>, full: seq<F>): (sent: seq<F>)
    requires |full| == |c.hooks|
    ensures |sent| == |full|
  {
    seq(|full|, k requires 0 <= k < |full| => SentFields(c.hooks[k], 0, full[k]))
  }

  function AllSpecs<F, N, S>(c: Chain<F, N, S>, full: seq<F>): (specs: seq<Option<S>>)
    requires |full| == |c.hooks|
    ensures |specs| == |full|
  {
    seq(|full|, k requires 0 <= k < |full| => Some(c.spec(SentFields(c.hooks[k], 0, full[k]))))
  }

  /** Every hook of every builder calls `next`, and every builder's own fields pass the check. */
  ghost predicate LetsThrough<F, N, S>(c: Chain<F, N, S>, full: seq<F>)
    requires |full| == |c.hooks|
  {
    forall k :: 0 <= k < |full| ==> Passes(c.hooks[k], 0) && c.check(OwnFields(c.hooks[k], 0, full[k])).Ok?
  }

  lemma StartReady<F, N, S>(c: Chain<F, N, S>, fields: seq<F>, defaults: F -> F)
    requires |fields| == |c.hooks| > 0
    ensures var s: State<F, N, S>, full := Start(fields, defaults), Defaulted(fields, defaults);
            && Ready(c, s, 0, 0) && s.log == []
            && PlanOf(c, s, 0, 0, 0).own == AllOwn(c, full) && PlanOf(c, s, 0, 0, 0).batch == AllSpecs(c, full)
            && (forall k :: 0 <= k < |full| ==> PlanOf(c, s, 0, 0, 0).entities[k] == Some(c.node(AllSent(c, full)[k])))
  {
    var s: State<F, N, S>, full := Start(fields, defaults), Defaulted(fields, defaults);
    assert forall k :: 0 <= k < |c.hooks| ==> s.store[k].fields == full[k];
    assert forall k :: 0 <= k < |c.hooks| ==> Sent(c, s, 0, 0, 0, k) == SentFields(c.hooks[k], 0, full[k]);
    assert PlanOf(c, s, 0, 0, 0).own == AllOwn(c, full);
    assert PlanOf(c, s, 0, 0, 0).batch == AllSpecs(c, full);
  }

  lemma IssuesExactlyWhen<F, N, S>(c: Chain<F, N, S>, full: seq<F>)
    requires |full| == |c.hooks| > 0
    ensures Issues(c, AllOwn(c, full), 0, 0) <==> LetsThrough(c, full)
  {
    var own := AllOwn(c, full);
    if Issues(c, own, 0, 0) {
      forall k | 0 <= k < |full| ensures Passes(c.hooks[k], 0) && c.check(own[k]).Ok? {
        if k < |full| - 1 { assert GetsOn(c, own, k); }
        if k > 0 { assert GetsOn(c, own, k - 1); }
      }
    }
  }

  /**
   * With hooks that call `next` at most once, the driver sees exactly one batch when every
   * hook passes and every check succeeds, and none otherwise; the batch holds the spec of
   * every builder, in builder order.
   */
  lemma BatchExactlyWhen<F, N, S>(c: Chain<F, N, S>, fields: seq<F>, defaults: F -> F)
    requires AtMostOnce(c) && |fields| == |c.hooks|
    ensures var full := Defaulted(fields, defaults);
            RunSave(c, fields, defaults).0.log ==
            if fields != [] && LetsThrough(c, full) then [AllSpecs(c, full)] else []
  {
    if fields != [] {
      StartReady(c, fields, defaults);
      IssuesExactlyWhen(c, Defaulted(fields, defaults));
      HooksEffect(c, Start(fields, defaults), 0, 0, 0);
    }
  }

  /** Builder j is entered: every builder before it lets the run through. */
  ghost predicate Entered<F, N, S>(c: Chain<F, N, S>, own: seq<F>, j: nat)
    requires j < |c.hooks| == |own|
  {
    forall k :: 0 <= k < j ==> Passes(c.hooks[k], 0) && c.check(own[k]).Ok?
  }

  lemma ReachesFromStart<F, N, S>(c: Chain<F, N, S>, own: seq<F>, j: nat)
    requires j < |c.hooks| == |own|
    ensures Reaches(c, own, 0, 0, j) <==> Entered(c, own, j) && Passes(c.hooks[j], 0)
  {
    if Reaches(c, own, 0, 0, j) {
      forall k | 0 <= k <= j ensures Passes(c.hooks[k], 0) && (k < j ==> c.check(own[k]).Ok?) {
        if k < j { assert GetsOn(c, own, k); }
        if k > 0 { assert GetsOn(c, own, k - 1); }
      }
    }
  }

  /** What the driver answers, or would answer, to the batch of this save. */
  ghost function Answer<F, N, S>(c: Chain<F, N, S>, full: seq<F>): Batch
    requires |full| == |c.hooks|
  {
    c.batch(0, AllSpecs(c, full))
  }

  /**
   * How every save ends, in closed form: its outcome, which builders are done, and what a
   * done builder's node holds once the batch was issued and stored.
   */
  lemma SaveEnds<F, N, S>(c: Chain<F, N, S>, fields: seq<F>, defaults: F -> F)
    requires AtMostOnce(c) && |fields| == |c.hooks| > 0
    ensures var (s, o) := RunSave(c, fields, defaults);
            var full := Defaulted(fields, defaults);
            var own, b := AllOwn(c, full), Answer(c, full);
            && o == Surface(c.hooks[0], 0, Below(c, own, 0, Reply(b)))
            && (forall j :: 0 <= j < |fields| ==>
                  (DoneAt(s, j) <==> Entered(c, own, j) && Passes(c.hooks[j], 0) && Below(c, own, j, Reply(b)).Ok?))
            && (forall j :: 0 <= j < |fields| && DoneAt(s, j) ==> PointsAtId(c, s, j))
            && (LetsThrough(c, full) && b.Stored? ==>
                  forall j :: 0 <= j < |fields| && DoneAt(s, j) ==>
                    s.nodes[j] == Some(Node(c.node(AllSent(c, full)[j]), StoredId(c, b, j))))
  {
    var s: State<F, N, S>, full := Start(fields, defaults), Defaulted(fields, defaults);
    var own, b := AllOwn(c, full), Answer(c, full);
    StartReady(c, fields, defaults);
    IssuesExactlyWhen(c, full);
    HooksEffect(c, s, 0, 0, 0);
    HooksEnd(c, s, 0, 0, 0);
    var s' := RunSave(c, fields, defaults).0;
    forall j | 0 <= j < |fields| ensures Reaches(c, own, 0, 0, j) <==> Entered(c, own, j) && Passes(c.hooks[j], 0) {
      ReachesFromStart(c, own, j);
    }
    if LetsThrough(c, full) && b.Stored? {
      forall j | 0 <= j < |fields| && DoneAt(s', j)
        ensures s'.nodes[j] == Some(Node(c.node(AllSent(c, full)[j]), StoredId(c, b, j)))
      {
        assert HasStoredId(c, s', b, j);
        assert Entities(s')[j] == PlanOf(c, s, 0, 0, 0).entities[j];
      }
    }
  }

  /** Which builders are done, and with what outcome, one at a time. */
  lemma DoneExactlyWhen<F, N, S>(c: Chain<F, N, S>, fields: seq<F>, defaults: F -> F, j: nat)
    requires AtMostOnce(c) && |fields| == |c.hooks| && j < |fields|
    ensures var s, full := RunSave(c, fields, defaults).0, Defaulted(fields, defaults);
            var own := AllOwn(c, full);
            DoneAt(s, j) <==> Entered(c, own, j) && Passes(c.hooks[j], 0) && Below(c, own, j, Reply(Answer(c, full))).Ok?
  {
    SaveEnds(c, fields, defaults);
  }

  // ------------------------------------------------------------------ what the hooks leave in the mutations

  /** The fields of a mutation that was given to hook h, once the hooks from h on returned, the closure under them with `o`. */
  function LeftFields<F>(hooks: seq<Hook<F>>, h: nat, o: Outcome, f: F): F
    decreases |hooks| - h
  {
    if h >= |hooks| then f
    else if hooks[h].calls == [] then hooks[h].finish([], f)
    else
      var call := hooks[h].calls[0];
      var edited := call.edit(f);
      hooks[h].finish([Surface(hooks, h + 1, o)], if call.pass.Same? then LeftFields(hooks, h + 1, o, edited) else edited)
  }

  /** The fields of a later builder's own mutation after the run: what its hooks left, or what it had if it was not entered. */
  ghost function LaterFields<F, N, S>(c: Chain<F, N, S>, own: seq<F>, i: nat, h: nat, b: Outcome, j: nat, f: F): F
    requires i < j < |c.hooks| == |own|
  {
    if Reaches(c, own, i, h, j - 1) && c.check(own[j - 1]).Ok? then LeftFields(c.hooks[j], 0, Below(c, own, j, b), f) else f
  }

  ghost predicate Leaves<F, N, S>(c: Chain<F, N, S>, own: seq<F>, i: nat, h: nat, m: nat, b: Outcome, s: State<F, N, S>, s': State<F, N, S>)
    requires i < |c.hooks| == |own| && |c.hooks| <= |s.store| <= |s'.store| && m < |s.store|
  {
    && s'.store[m].fields == LeftFields(c.hooks[i], h, Below(c, own, i, b), s.store[m].fields)
    && forall j :: i < j < |c.hooks| ==> s'.store[j].fields == LaterFields(c, own, i, h, b, j, s.store[j].fields)
  }

  lemma {:induction false} HooksLeave<F, N, S>(c: Chain<F, N, S>, s: State<F, N, S>, i: nat, h: nat, m: nat)
    requires AtMostOnce(c) && Ready(c, s, i, m) && h <= |c.hooks[i]|
    ensures var p := PlanOf(c, s, i, h, m); Leaves(c, p.own, i, h, m, Reply(c.batch(|s.log|, p.batch)), s, RunHooks(c, s, i, h, m).0)
    decreases |c.hooks| - i, |c.hooks[i]| - h, 1
  {
    if h == |c.hooks[i]| {
      InnerLeaves(c, s, i, m);
    } else if c.hooks[i][h].calls == [] {
      assert RunCalls(c, s, i, h, m, 0) == (s, []);
      assert !Passes(c.hooks[i], h);
    } else {
      var call := c.hooks[i][h].calls[0];
      var given := Handed(Edited(s, m, call.edit), m, call.pass);
      CallTransfer(c, s, i, h, m, given.0, given.1);
      HooksLeave(c, given.0, i, h + 1, given.1);
      CallLeaves(c, s, i, h, m, given.0, given.1);
    }
  }

  lemma CallLeaves<F, N, S>(c: Chain<F, N, S>, s: State<F, N, S>, i: nat, h: nat, m: nat, s1: State<F, N, S>, m1: nat)
    requires AtMostOnce(c) && Ready(c, s, i, m) && h < |c.hooks[i]| && c.hooks[i][h].calls != []
    requires var call := c.hooks[i][h].calls[0]; (s1, m1) == Handed(Edited(s, m, call.edit), m, call.pass)
    requires Ready(c, s1, i, m1)
    requires var p := PlanOf(c, s1, i, h + 1, m1);
             Leaves(c, p.own, i, h + 1, m1, Reply(c.batch(|s1.log|, p.batch)), s1, RunHooks(c, s1, i, h + 1, m1).0)
    ensures var p := PlanOf(c, s, i, h, m); Leaves(c, p.own, i, h, m, Reply(c.batch(|s.log|, p.batch)), s, RunHooks(c, s, i, h, m).0)
  {
    CallTransfer(c, s, i, h, m, s1, m1);
    SingleCall(c, s, i, h, m, s1, m1);
    HooksEnd(c, s1, i, h + 1, m1);
    HooksEffect(c, s1, i, h + 1, m1);
    var p, r := PlanOf(c, s, i, h, m), RunHooks(c, s1, i, h + 1, m1);
    ReturnLeaves(c, p.own, i, h, m, Reply(c.batch(|s.log|, p.batch)), s, s1, m1, r);
  }

  lemma ReturnLeaves<F, N, S>(c: Chain<F, N, S>, own: seq<F>, i: nat, h: nat, m: nat, b: Outcome,
                              s: State<F, N, S>, s1: State<F, N, S>, m1: nat, r: (State<F, N, S>, Outcome))
    requires AtMostOnce(c) && Ready(c, s, i, m) && |own| == |c.hooks| && h < |c.hooks[i]| && c.hooks[i][h].calls != []
    requires var call := c.hooks[i][h].calls[0]; (s1, m1) == Handed(Edited(s, m, call.edit), m, call.pass)
    requires Framed(c, s1, i, m1, r.0) && Leaves(c, own, i, h + 1, m1, b, s1, r.0)
    requires r.1 == Surface(c.hooks[i], h + 1, Below(c, own, i, b))
    ensures Leaves(c, own, i, h, m, b, s, Returned(r.0, c.hooks[i][h], m, [r.1]).0)
  {
    forall j | i < j < |c.hooks| ensures LaterFields(c, own, i, h, b, j, s.store[j].fields) == LaterFields(c, own, i, h + 1, b, j, s1.store[j].fields) {
      PassesOn(c, own, i, h, j - 1);
    }
  }

  lemma {:induction false} InnerLeaves<F, N, S>(c: Chain<F, N, S>, s: State<F, N, S>, i: nat, m: nat)
    requires AtMostOnce(c) && Ready(c, s, i, m)
    ensures var p, h := PlanOf(c, s, i, |c.hooks[i]|, m), |c.hooks[i]|;
            Leaves(c, p.own, i, h, m, Reply(c.batch(|s.log|, p.batch)), s, RunInner(c, s, i, m).0)
    decreases |c.hooks| - i, 0, 0
  {
    var p := PlanOf(c, s, i, |c.hooks[i]|, m);
    var b := Reply(c.batch(|s.log|, p.batch));
    BuiltTransfer(c, s, i, m);
    if c.check(s.store[i].fields).Ok? {
      RestEffect(c, s, i, m);
      RestLeaves(c, s, i, m);
      FinishLeaves(c, p.own, i, m, b, s, RunRest(c, Built(c, s, i, m), i).0);
    } else {
      RefusedLeaves(c, p.own, i, m, b, s);
    }
  }

  lemma RefusedLeaves<F, N, S>(c: Chain<F, N, S>, own: seq<F>, i: nat, m: nat, b: Outcome, s: State<F, N, S>)
    requires Ready(c, s, i, m) && |own| == |c.hooks| && c.check(own[i]).Err?
    ensures Leaves(c, own, i, |c.hooks[i]|, m, b, s, s)
  {
    forall j | i < j < |c.hooks| ensures LaterFields(c, own, i, |c.hooks[i]|, b, j, s.store[j].fields) == s.store[j].fields {
      if j - 1 > i {
        RefusedReachesNothing(c, own, i, j - 1);
      }
    }
  }

  lemma FinishLeaves<F, N, S>(c: Chain<F, N, S>, own: seq<F>, i: nat, m: nat, b: Outcome, s: State<F, N, S>, s2: State<F, N, S>)
    requires Ready(c, s, i, m) && |own| == |c.hooks| && Wf(c, s2) && |s.store| <= |s2.store| && s2.nodes[i].Some?
    requires Leaves(c, own, i, |c.hooks[i]|, m, b, s, s2)
    ensures Leaves(c, own, i, |c.hooks[i]|, m, b, s, Finished(c, s2, i, m))
  {
    assert forall p :: 0 <= p < |s2.store| ==> Finished(c, s2, i, m).store[p].fields == s2.store[p].fields;
  }

  lemma {:induction false} RestLeaves<F, N, S>(c: Chain<F, N, S>, s: State<F, N, S>, i: nat, m: nat)
    requires AtMostOnce(c) && Ready(c, s, i, m) && c.check(s.store[i].fields).Ok?
    requires SeenFrom(c, s, i, m, RunRest(c, Built(c, s, i, m), i).0)
    ensures var p, h := PlanOf(c, s, i, |c.hooks[i]|, m), |c.hooks[i]|;
            Leaves(c, p.own, i, h, m, Reply(c.batch(|s.log|, p.batch)), s, RunRest(c, Built(c, s, i, m), i).0)
    decreases |c.hooks| - i - 1, if i < |c.hooks| - 1 then |c.hooks[i + 1]| else 0, 2
  {
    BuiltTransfer(c, s, i, m);
    if i < |c.hooks| - 1 {
      HooksLeave(c, Built(c, s, i, m), i + 1, 0, i + 1);
      var p := PlanOf(c, s, i, |c.hooks[i]|, m);
      LaterLeaves(c, p.own, i, m, Reply(c.batch(|s.log|, p.batch)), s, RunHooks(c, Built(c, s, i, m), i + 1, 0, i + 1).0);
    }
  }

  lemma LaterLeaves<F, N, S>(c: Chain<F, N, S>, own: seq<F>, i: nat, m: nat, b: Outcome, s: State<F, N, S>, s2: State<F, N, S>)
    requires Ready(c, s, i, m) && i < |c.hooks| - 1 && |own| == |c.hooks| && c.check(own[i]).Ok? && |s.store| <= |s2.store|
    requires s2.store[m] == s.store[m] && Leaves(c, own, i + 1, 0, i + 1, b, Built(c, s, i, m), s2)
    ensures Leaves(c, own, i, |c.hooks[i]|, m, b, s, s2)
  {
    assert Reaches(c, own, i, |c.hooks[i]|, i);
    forall j | i < j < |c.hooks| ensures s2.store[j].fields == LaterFields(c, own, i, |c.hooks[i]|, b, j, s.store[j].fields) {
      if j > i + 1 {
        ReachesOn(c, own, i, j - 1);
      }
    }
  }

  /** After a save, every builder's own mutation holds what its hooks left in it, or its defaults if it was never entered. */
  lemma SaveLeaves<F, N, S>(c: Chain<F, N, S>, fields: seq<F>, defaults: F -> F, j: nat)
    requires AtMostOnce(c) && |fields| == |c.hooks| && j < |fields|
    ensures var s, full := RunSave(c, fields, defaults).0, Defaulted(fields, defaults);
            var own, b := AllOwn(c, full), Reply(Answer(c, full));
            && j < |s.store|
            && s.store[j].fields == if Entered(c, own, j) then LeftFields(c.hooks[j], 0, Below(c, own, j, b), full[j]) else full[j]
  {
    var full := Defaulted(fields, defaults);
    StartReady(c, fields, defaults);
    HooksLeave(c, Start(fields, defaults), 0, 0, 0);
    if j > 0 {
      ReachesFromStart(c, AllOwn(c, full), j - 1);
      assert Entered(c, AllOwn(c, full), j) <==>
             Entered(c, AllOwn(c, full), j - 1) && Passes(c.hooks[j - 1], 0) && c.check(AllOwn(c, full)[j - 1]).Ok?;
    }
  }

  // ------------------------------------------------------------------ how often the batch can be issued

  /** The product of the numbers of calls of the hooks from hook h of builder i on. */
  function CallProduct<F, N, S>(c: Chain<F, N, S>, i: nat, h: nat): nat
    requires i < |c.hooks| && h <= |c.hooks[i]|
    decreases |c.hooks| - i, |c.hooks[i]| - h
  {
    if h < |c.hooks[i]| then |c.hooks[i][h].calls| * CallProduct(c, i, h + 1)
    else if i + 1 < |c.hooks| then CallProduct(c, i + 1, 0)
    else 1
  }

  /** `after` extends `before` by at most n batches, and by exactly n when no check ever fails. */
  ghost predicate Extends<F(!new), N, S>(c: Chain<F, N, S>, before: seq<seq<Option<S>>>, after: seq<seq<Option<S>>>, n: nat) {
    && |before| <= |after| <= |before| + n
    && ((forall f :: c.check(f).Ok?) ==> |after| == |before| + n)
  }

  lemma {:induction false} HooksBatches<F(!new), N, S>(c: Chain<F, N, S>, s: State<F, N, S>, i: nat, h: nat, m: nat)
    requires Wf(c, s) && i < |c.hooks| && h <= |c.hooks[i]| && m < |s.store|
    ensures Extends(c, s.log, RunHooks(c, s, i, h, m).0.log, CallProduct(c, i, h))
    decreases |c.hooks| - i, |c.hooks[i]| - h, 1, 0
  {
    if h == |c.hooks[i]| {
      InnerBatches(c, s, i, m);
    } else {
      CallsBatches(c, s, i, h, m, 0);
    }
  }

  lemma {:induction false} InnerBatches<F(!new), N, S>(c: Chain<F, N, S>, s: State<F, N, S>, i: nat, m: nat)
    requires Wf(c, s) && i < |c.hooks| && m < |s.store|
    ensures Extends(c, s.log, RunInner(c, s, i, m).0.log, CallProduct(c, i, |c.hooks[i]|))
    decreases |c.hooks| - i, 0, 0, 0
  {
    if c.check(s.store[s.current[i]].fields).Ok? {
      var s1 := Built(c, s, i, m);
      if i + 1 < |c.hooks| {
        HooksBatches(c, s1, i + 1, 0, s1.current[i + 1]);
        assert RunRest(c, s1, i) == RunHooks(c, s1, i + 1, 0, s1.current[i + 1]);
      } else {
        assert RunRest(c, s1, i) == RunBatch(c, s1);
      }
      assert RunInner(c, s, i, m).0.log == RunRest(c, s1, i).0.log;
    }
  }

  lemma {:induction false} CallsBatches<F(!new), N, S>(c: Chain<F, N, S>, s: State<F, N, S>, i: nat, h: nat, m: nat, j: nat)
    requires Wf(c, s) && i < |c.hooks| && h < |c.hooks[i]| && j <= |c.hooks[i][h].calls| && m < |s.store|
    ensures Extends(c, s.log, RunCalls(c, s, i, h, m, j).0.log, (|c.hooks[i][h].calls| - j) * CallProduct(c, i, h + 1))
    decreases |c.hooks| - i, |c.hooks[i]| - h, 0, |c.hooks[i][h].calls| - j
  {
    if j < |c.hooks[i][h].calls| {
      var call := c.hooks[i][h].calls[j];
      var given := Handed(Edited(s, m, call.edit), m, call.pass);
      var p, left := CallProduct(c, i, h + 1), |c.hooks[i][h].calls| - j;
      HooksBatches(c, given.0, i, h + 1, given.1);
      CallsBatches(c, RunHooks(c, given.0, i, h + 1, given.1).0, i, h, m, j + 1);
      assert left * p == p + (left - 1) * p;
    }
  }

  /** Whatever the hooks do, the number of batches is bounded by the product of their calls, and reaches it when no check fails. */
  lemma BatchesBoundedByCalls<F(!new), N, S>(c: Chain<F, N, S>, fields: seq<F>, defaults: F -> F)
    requires |fields| == |c.hooks| > 0
    ensures Extends(c, [], RunSave(c, fields, defaults).0.log, CallProduct(c, 0, 0))
  {
    HooksBatches(c, Start(fields, defaults), 0, 0, 0);
  }
}
