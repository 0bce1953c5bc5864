/**
 * What `Save` promises its callers: which builders are done, that success means stored rows,
 * that inserted rows were checked, and that bulk and single saves agree. Each promise holds
 * under a condition on the hooks that is stated exactly.
 */
module BulkCreatePromises {
  import opened Prelude
  import opened BulkCreate
  import opened BulkCreateTheorems

  // ------------------------------------------------------------------ which builders are done

  /** The hooks of a builder report success although they, or what lies under them, did not succeed. */
  ghost predicate Masks<F>(hooks: seq<Hook<F>>, under: Outcome) {
    Surface(hooks, 0, under).Ok? && !(Passes(hooks, 0) && under.Ok?)
  }

  /** No builder from `first` on that is entered masks what lies under its hooks. */
  ghost predicate Unmasked<F, N, S>(c: Chain<F, N, S>, own: seq<F>, b: Outcome, first: nat)
    requires |own| == |c.hooks|
  {
    forall j :: first <= j < |c.hooks| && Entered(c, own, j) ==> !Masks(c.hooks[j], Below(c, own, j, b))
  }

  /** Builders k.. and no others are done. */
  ghost predicate DoneFrom<F, N, S>(c: Chain<F, N, S>, s: State<F, N, S>, k: nat)
    requires Wf(c, s)
  {
    forall j :: 0 <= j < |c.hooks| ==> (DoneAt(s, j) <==> k <= j)
  }

  /** Builder j is done and builder j+1 is not, exactly when builder j+1 is entered and masks a failure. */
  lemma BreaksExactlyWhenMasked<F, N, S>(c: Chain<F, N, S>, fields: seq<F>, defaults: F -> F, j: nat)
    requires AtMostOnce(c) && |fields| == |c.hooks| && j + 1 < |c.hooks|
    ensures var s, full := RunSave(c, fields, defaults).0, Defaulted(fields, defaults);
            var own := AllOwn(c, full);
            DoneAt(s, j) && !DoneAt(s, j + 1) <==>
              Entered(c, own, j + 1) && Masks(c.hooks[j + 1], Below(c, own, j + 1, Reply(Answer(c, full))))
  {
    DoneExactlyWhen(c, fields, defaults, j);
    DoneExactlyWhen(c, fields, defaults, j + 1);
    var own := AllOwn(c, Defaulted(fields, defaults));
    assert Entered(c, own, j + 1) <==> Entered(c, own, j) && Passes(c.hooks[j], 0) && c.check(own[j]).Ok?;
  }

  /** Done marks without a break form a suffix. */
  lemma {:induction false} NoBreakMakesSuffix<F, N, S>(c: Chain<F, N, S>, s: State<F, N, S>, n: nat) returns (k: nat)
    requires Wf(c, s) && n <= |c.hooks|
    requires forall j :: 0 <= j < |c.hooks| - 1 && DoneAt(s, j) ==> DoneAt(s, j + 1)
    ensures k <= n && forall j :: 0 <= j < n ==> (DoneAt(s, j) <==> k <= j)
  {
    if n == 0 {
      k := 0;
    } else {
      k := NoBreakMakesSuffix(c, s, n - 1);
      if k == n - 1 && !DoneAt(s, n - 1) {
        k := n;
      } else if k < n - 1 {
        assert DoneAt(s, n - 2) ==> DoneAt(s, n - 2 + 1);
      }
    }
  }

  /**
   * The done mutations are a suffix of the builders if and only if no builder after the
   * first that is entered masks a failure under its hooks.
   */
  lemma DoneSuffixExactlyWhen<F, N, S>(c: Chain<F, N, S>, fields: seq<F>, defaults: F -> F)
    requires AtMostOnce(c) && |fields| == |c.hooks|
    ensures var s, full := RunSave(c, fields, defaults).0, Defaulted(fields, defaults);
            (exists k: nat :: k <= |fields| && DoneFrom(c, s, k)) <==> Unmasked(c, AllOwn(c, full), Reply(Answer(c, full)), 1)
  {
    var s, full := RunSave(c, fields, defaults).0, Defaulted(fields, defaults);
    var own, b := AllOwn(c, full), Reply(Answer(c, full));
    forall j | 0 <= j < |fields| - 1
      ensures DoneAt(s, j) && !DoneAt(s, j + 1) <==> Entered(c, own, j + 1) && Masks(c.hooks[j + 1], Below(c, own, j + 1, b))
    {
      BreaksExactlyWhenMasked(c, fields, defaults, j);
    }
    if Unmasked(c, own, b, 1) {
      forall j | 0 <= j < |fields| - 1 && DoneAt(s, j) ensures DoneAt(s, j + 1) {
      }
      var k := NoBreakMakesSuffix(c, s, |fields|);
      assert DoneFrom(c, s, k);
    } else {
      var j: nat :| 1 <= j < |c.hooks| && Entered(c, own, j) && Masks(c.hooks[j], Below(c, own, j, b));
      assert DoneAt(s, j - 1) && !DoneAt(s, j - 1 + 1);
    }
  }

  /** The last builder is done exactly when the batch was issued and stored; so a done suffix that is not empty means it was. */
  lemma LastDoneExactlyWhenStored<F, N, S>(c: Chain<F, N, S>, fields: seq<F>, defaults: F -> F)
    requires AtMostOnce(c) && |fields| == |c.hooks| > 0
    ensures var s, full := RunSave(c, fields, defaults).0, Defaulted(fields, defaults);
            DoneAt(s, |fields| - 1) <==> LetsThrough(c, full) && Answer(c, full).Stored?
  {
    DoneExactlyWhen(c, fields, defaults, |fields| - 1);
    LastLetsThrough(c, Defaulted(fields, defaults));
  }

  lemma LastLetsThrough<F, N, S>(c: Chain<F, N, S>, full: seq<F>)
    requires |full| == |c.hooks| > 0
    ensures var own, last := AllOwn(c, full), |full| - 1;
            LetsThrough(c, full) <==> Entered(c, own, last) && Passes(c.hooks[last], 0) && c.check(own[last]).Ok?
  {
  }

  /** The done mutations are a suffix and a nil error means all are done, if and only if no builder that is entered masks a failure. */
  lemma NilErrorMeansAllDoneExactlyWhen<F, N, S>(c: Chain<F, N, S>, fields: seq<F>, defaults: F -> F)
    requires AtMostOnce(c) && |fields| == |c.hooks| > 0
    ensures var (s, o) := RunSave(c, fields, defaults);
            var full := Defaulted(fields, defaults);
            (exists k: nat :: k <= |fields| && DoneFrom(c, s, k)) && (o.Ok? ==> DoneFrom(c, s, 0)) <==>
              Unmasked(c, AllOwn(c, full), Reply(Answer(c, full)), 0)
  {
    var (s, o) := RunSave(c, fields, defaults);
    var full := Defaulted(fields, defaults);
    var own, b := AllOwn(c, full), Reply(Answer(c, full));
    DoneSuffixExactlyWhen(c, fields, defaults);
    SaveEnds(c, fields, defaults);
    assert Entered(c, own, 0);
    assert o.Ok? && !DoneAt(s, 0) <==> Masks(c.hooks[0], Below(c, own, 0, b));
    assert Unmasked(c, own, b, 0) <==> Unmasked(c, own, b, 1) && !Masks(c.hooks[0], Below(c, own, 0, b));
  }

  // ------------------------------------------------------------------ honest hooks

  /** A hook that reports success only after a successful call of `next`. */
  ghost predicate Honest<F>(hook: Hook<F>) {
    if hook.calls == [] then hook.result([]).Err? else forall e :: hook.result([Err(e)]).Err?
  }

  ghost predicate AllHonest<F, N, S>(c: Chain<F, N, S>) {
    forall i, h :: 0 <= i < |c.hooks| && 0 <= h < |c.hooks[i]| ==> Honest(c.hooks[i][h])
  }

  lemma {:induction false} HonestNeverMask<F>(hooks: seq<Hook<F>>, h: nat, o: Outcome)
    requires forall k :: 0 <= k < |hooks| ==> Honest(hooks[k])
    ensures Surface(hooks, h, o).Ok? ==> Passes(hooks, h) && o.Ok?
    decreases |hooks| - h
  {
    if h >= |hooks| {
    } else {
      HonestNeverMask(hooks, h + 1, o);
      HonestReports(hooks[h], Surface(hooks, h + 1, o));
    }
  }

  lemma HonestReports<F>(hook: Hook<F>, under: Outcome)
    requires Honest(hook)
    ensures if hook.calls == [] then hook.result([]).Err? else hook.result([under]).Ok? ==> under.Ok?
  {
    if hook.calls != [] && under.Err? {
      assert hook.result([Err(under.msg)]).Err?;
    }
  }

  /**
   * With honest hooks the done mutations are a suffix of the builders; a non-empty suffix
   * means the one batch was stored; and a nil error means every builder is done, its node
   * built from the fields that reached its closure and carrying the ID the driver reported.
   */
  lemma DoneSuffix<F, N, S>(c: Chain<F, N, S>, fields: seq<F>, defaults: F -> F) returns (k: nat)
    requires AtMostOnce(c) && AllHonest(c) && |fields| == |c.hooks|
    ensures var (s, o) := RunSave(c, fields, defaults);
            var full := Defaulted(fields, defaults);
            && k <= |fields| && DoneFrom(c, s, k)
            && (k < |fields| ==> s.log == [AllSpecs(c, full)] && Answer(c, full).Stored?)
            && (o.Ok? ==> k == 0)
            && (forall j :: k <= j < |fields| ==> s.nodes[j] == Some(Node(c.node(AllSent(c, full)[j]), StoredId(c, Answer(c, full), j))))
  {
    k := 0;
    if fields != [] {
      var full := Defaulted(fields, defaults);
      var own, b := AllOwn(c, full), Reply(Answer(c, full));
      forall j | 0 <= j < |c.hooks| ensures !Masks(c.hooks[j], Below(c, own, j, b)) {
        HonestNeverMask(c.hooks[j], 0, Below(c, own, j, b));
      }
      NilErrorMeansAllDoneExactlyWhen(c, fields, defaults);
      LastDoneExactlyWhenStored(c, fields, defaults);
      BatchExactlyWhen(c, fields, defaults);
      SaveEnds(c, fields, defaults);
      var s, o := RunSave(c, fields, defaults).0, RunSave(c, fields, defaults).1;
      k :| k <= |fields| && DoneFrom(c, s, k);
      if o.Ok? {
        assert DoneAt(s, 0);
      }
    }
  }

  // ------------------------------------------------------------------ silent loss

  /** `Save` reported success but the driver stored nothing. */
  ghost predicate SilentLoss<F, N, S>(c: Chain<F, N, S>, fields: seq<F>, defaults: F -> F)
    requires |fields| == |c.hooks|
  {
    var (s, o) := RunSave(c, fields, defaults);
    o.Ok? && (s.log == [] || c.batch(0, s.log[0]).Failed?)
  }

  /** The outcome of a save in which the driver replies `b`. */
  ghost function Folded<F, N, S>(c: Chain<F, N, S>, full: seq<F>, b: Outcome): Outcome
    requires |full| == |c.hooks| > 0
  {
    Surface(c.hooks[0], 0, Below(c, AllOwn(c, full), 0, b))
  }

  lemma {:induction false} SurfaceIgnores<F>(hooks: seq<Hook<F>>, h: nat, o: Outcome, o': Outcome)
    requires !Passes(hooks, h)
    ensures Surface(hooks, h, o) == Surface(hooks, h, o')
    decreases |hooks| - h
  {
    if hooks[h].calls != [] {
      SurfaceIgnores(hooks, h + 1, o, o');
    }
  }

  /** What closure i returns does not depend on a driver that is not reached. */
  lemma {:induction false} BelowIgnores<F, N, S>(c: Chain<F, N, S>, own: seq<F>, i: nat, b: Outcome, b': Outcome)
    requires i < |c.hooks| == |own| && !Issues(c, own, i, |c.hooks[i]|)
    ensures Below(c, own, i, b) == Below(c, own, i, b')
    decreases |c.hooks| - i
  {
    if c.check(own[i]).Ok? {
      assert Passes(c.hooks[i], |c.hooks[i]|);
      if i == |c.hooks| - 1 {
        assert Issues(c, own, i, |c.hooks[i]|);
      } else if Passes(c.hooks[i + 1], 0) {
        ReachesOn(c, own, i, |c.hooks| - 1);
        assert Passes(c.hooks[i + 1], |c.hooks[i + 1]|);
        BelowIgnores(c, own, i + 1, b, b');
      } else {
        SurfaceIgnores(c.hooks[i + 1], 0, Below(c, own, i + 1, b), Below(c, own, i + 1, b'));
      }
    }
  }

  lemma FoldedIgnores<F, N, S>(c: Chain<F, N, S>, full: seq<F>, b: Outcome, b': Outcome)
    requires |full| == |c.hooks| > 0 && !LetsThrough(c, full)
    ensures Folded(c, full, b) == Folded(c, full, b')
  {
    var own := AllOwn(c, full);
    IssuesExactlyWhen(c, full);
    if Passes(c.hooks[0], 0) {
      assert Passes(c.hooks[0], |c.hooks[0]|);
      BelowIgnores(c, own, 0, b, b');
    } else {
      SurfaceIgnores(c.hooks[0], 0, Below(c, own, 0, b), Below(c, own, 0, b'));
    }
  }

  /** With this driver, success without a stored batch is the fold of a failure, or of anything if the driver is not reached. */
  lemma SilentExactlyWhen<F, N, S>(c: Chain<F, N, S>, fields: seq<F>, defaults: F -> F)
    requires AtMostOnce(c) && |fields| == |c.hooks| > 0
    ensures var full := Defaulted(fields, defaults);
            SilentLoss(c, fields, defaults) <==>
              Folded(c, full, Reply(Answer(c, full))).Ok? && !(LetsThrough(c, full) && Answer(c, full).Stored?)
  {
    SaveEnds(c, fields, defaults);
    BatchExactlyWhen(c, fields, defaults);
  }

  lemma FoldedKeeps<F, N, S>(c: Chain<F, N, S>, batch: (nat, seq<Option<S>>) -> Batch, full: seq<F>, b: Outcome)
    requires |full| == |c.hooks| > 0
    ensures var c' := c.(batch := batch);
            && Folded(c', full, b) == Folded(c, full, b) && AllSpecs(c', full) == AllSpecs(c, full)
            && (LetsThrough(c', full) <==> LetsThrough(c, full))
  {
    var c' := c.(batch := batch);
    assert AllOwn(c', full) == AllOwn(c, full);
    assert AllSpecs(c', full) == AllSpecs(c, full);
    BelowKeeps(c, batch, AllOwn(c, full), 0, b);
  }

  lemma {:induction false} BelowKeeps<F, N, S>(c: Chain<F, N, S>, batch: (nat, seq<Option<S>>) -> Batch, own: seq<F>, i: nat, b: Outcome)
    requires i < |c.hooks| == |own|
    ensures Below(c.(batch := batch), own, i, b) == Below(c, own, i, b)
    decreases |c.hooks| - i
  {
    if i < |c.hooks| - 1 {
      BelowKeeps(c, batch, own, i + 1, b);
    }
  }

  /**
   * For any number of builders, any hooks and any check: a nil error means that the rows
   * were stored, whatever the driver does, if and only if the hooks turn no failure of the
   * driver into success.
   */
  lemma NilErrorMeansStoredExactlyWhen<F, N, S(!new)>(c: Chain<F, N, S>, fields: seq<F>, defaults: F -> F)
    requires AtMostOnce(c) && |fields| == |c.hooks| > 0
    ensures (forall batch: (nat, seq<Option<S>>) -> Batch :: !SilentLoss(c.(batch := batch), fields, defaults)) <==>
            forall e :: Folded(c, Defaulted(fields, defaults), Err(e)).Err?
  {
    var full := Defaulted(fields, defaults);
    if forall e :: Folded(c, full, Err(e)).Err? {
      forall batch: (nat, seq<Option<S>>) -> Batch ensures !SilentLoss(c.(batch := batch), fields, defaults) {
        var reply := Reply(Answer(c.(batch := batch), full));
        SilentExactlyWhen(c.(batch := batch), fields, defaults);
        FoldedKeeps(c, batch, full, reply);
        if !LetsThrough(c, full) {
          FoldedIgnores(c, full, reply, Err(""));
        }
      }
    } else {
      var e :| Folded(c, full, Err(e)).Ok?;
      var batch: (nat, seq<Option<S>>) -> Batch := (n, specs) => Failed(e);
      SilentExactlyWhen(c.(batch := batch), fields, defaults);
      FoldedKeeps(c, batch, full, Err(e));
      assert SilentLoss(c.(batch := batch), fields, defaults);
    }
  }

  /** Honest hooks are enough for that; they are not needed, because an outer hook may report what an inner one hides. */
  lemma HonestNeverSilent<F, N, S>(c: Chain<F, N, S>, full: seq<F>, e: string)
    requires AllHonest(c) && |full| == |c.hooks| > 0
    ensures Folded(c, full, Err(e)).Err?
  {
    HonestBelow(c, AllOwn(c, full), 0, e);
    HonestNeverMask(c.hooks[0], 0, Below(c, AllOwn(c, full), 0, Err(e)));
  }

  lemma {:induction false} HonestBelow<F, N, S>(c: Chain<F, N, S>, own: seq<F>, i: nat, e: string)
    requires AllHonest(c) && i < |c.hooks| == |own|
    ensures Below(c, own, i, Err(e)).Err?
    decreases |c.hooks| - i
  {
    if i < |c.hooks| - 1 {
      HonestBelow(c, own, i + 1, e);
      HonestSurface(c.hooks[i + 1], Below(c, own, i + 1, Err(e)));
    }
  }

  lemma HonestSurface<F>(hooks: seq<Hook<F>>, under: Outcome)
    requires (forall k :: 0 <= k < |hooks| ==> Honest(hooks[k])) && under.Err?
    ensures Surface(hooks, 0, under).Err?
  {
    HonestNeverMask(hooks, 0, under);
  }

  /**
   * Two builders; the second one's hook skips `next` and returns no error. `Save` then
   * reports success although nothing was inserted, the first mutation is marked done, the
   * second is not, and the second node is nil.
   */
  lemma SkippingHookLosesRows(batch: (nat, seq<Option<int>>) -> Batch)
    ensures var skip: Hook<int> := Hook([], (_, f) => f, _ => Ok);
            var c: Chain<int, int, int> := Chain([[], [skip]], _ => Ok, x => x, x => x, true, batch);
            var (s, o) := RunSave(c, [10, 20], x => x);
            o.Ok? && s.log == [] && DoneAt(s, 0) && !DoneAt(s, 1) && s.nodes[1].None?
  {
    var skip: Hook<int> := Hook([], (_, f) => f, _ => Ok);
    var c: Chain<int, int, int> := Chain([[], [skip]], _ => Ok, x => x, x => x, true, batch);
    var s: State<int, int, int> := Start([10, 20], x => x);
    var s1 := Built(c, s, 0, 0);
    assert RunHooks(c, s, 0, 0, 0) == RunInner(c, s, 0, 0);
    assert RunRest(c, s1, 0) == RunHooks(c, s1, 1, 0, 1);
    assert RunCalls(c, s1, 1, 0, 1, 0) == (s1, []);
    assert s1.store[1 := s1.store[1]] == s1.store;
    assert RunHooks(c, s1, 1, 0, 1) == (s1, Ok);
  }

  /** One builder whose inner hook swallows every error and whose outer hook reports one: dishonest, yet never silent. */
  lemma OuterHookReports(check: int -> Outcome, batch: (nat, seq<Option<int>>) -> Batch, f: int, e: string)
    ensures var through: Call<int> := Call(x => x, Same);
            var outer, inner := Hook([through], (_, f) => f, _ => Err("outer")), Hook([through], (_, f) => f, _ => Ok);
            var c: Chain<int, int, int> := Chain([[outer, inner]], check, x => x, x => x, true, batch);
            !AllHonest(c) && Folded(c, [f], Err(e)).Err?
  {
    var through: Call<int> := Call(x => x, Same);
    var outer, inner := Hook([through], (_, f) => f, _ => Err("outer")), Hook([through], (_, f) => f, _ => Ok);
    var c: Chain<int, int, int> := Chain([[outer, inner]], check, x => x, x => x, true, batch);
    assert inner.result([Err(e)]).Ok? && !Honest(inner);
    assert c.hooks[0][1] == inner;
  }

  // ------------------------------------------------------------------ which rows were checked

  /** Every batch holds the rows of `sent`, and each of them passes `g`. */
  ghost predicate RowsPass<F, N, S>(c: Chain<F, N, S>, log: seq<seq<Option<S>>>, sent: seq<F>, g: F -> Outcome) {
    forall b :: b in log ==> |b| == |sent| && forall k :: 0 <= k < |sent| ==> b[k] == Some(c.spec(sent[k])) && g(sent[k]).Ok?
  }

  /** With `g` as the check, every row that the save inserts passes it. */
  ghost predicate InsertsChecked<F, N, S>(c: Chain<F, N, S>, fields: seq<F>, defaults: F -> F, g: F -> Outcome)
    requires |fields| == |c.hooks|
  {
    RowsPass(c, RunSave(c.(check := g), fields, defaults).0.log, AllSent(c, Defaulted(fields, defaults)), g)
  }

  ghost predicate AllPass<F, N, S>(c: Chain<F, N, S>) {
    forall k :: 0 <= k < |c.hooks| ==> Passes(c.hooks[k], 0)
  }

  /** Each mutation that is sent has the fields of some checked one. */
  ghost predicate SentIsOwn<F, N, S>(c: Chain<F, N, S>, full: seq<F>)
    requires |full| == |c.hooks|
  {
    forall k :: 0 <= k < |full| ==> AllSent(c, full)[k] in AllOwn(c, full)
  }

  /**
   * `check` reads the builder's mutation before the closure takes over the one it was
   * handed. So every row that a save inserts passes the check, whatever the check is, if and
   * only if some hook never lets the run through, or each mutation sent has the fields of
   * some checked one.
   */
  lemma CheckedExactlyWhenSentIsOwn<F(!new), N, S>(c: Chain<F, N, S>, fields: seq<F>, defaults: F -> F)
    requires AtMostOnce(c) && |fields| == |c.hooks|
    ensures (forall g: F -> Outcome :: InsertsChecked(c, fields, defaults, g)) <==>
            (AllPass(c) ==> SentIsOwn(c, Defaulted(fields, defaults)))
  {
    if AllPass(c) && !SentIsOwn(c, Defaulted(fields, defaults)) {
      var g := RefusedRow(c, fields, defaults);
    } else {
      forall g: F -> Outcome ensures InsertsChecked(c, fields, defaults, g) {
        CheckedRows(c, fields, defaults, g);
      }
    }
  }

  lemma CheckedRows<F, N, S>(c: Chain<F, N, S>, fields: seq<F>, defaults: F -> F, g: F -> Outcome)
    requires AtMostOnce(c) && |fields| == |c.hooks| && (AllPass(c) ==> SentIsOwn(c, Defaulted(fields, defaults)))
    ensures InsertsChecked(c, fields, defaults, g)
  {
    var full := Defaulted(fields, defaults);
    var own, sent := AllOwn(c, full), AllSent(c, full);
    CheckedSave(c, g, fields, defaults);
    if LetsThrough(c.(check := g), full) {
      forall k | 0 <= k < |full| ensures g(sent[k]).Ok? {
        assert sent[k] in own;
        var j :| 0 <= j < |own| && own[j] == sent[k];
      }
    }
  }

  /** A check that refuses only the fields of a mutation that is sent but not checked lets it into the batch. */
  lemma RefusedRow<F(!new), N, S>(c: Chain<F, N, S>, fields: seq<F>, defaults: F -> F) returns (g: F -> Outcome)
    requires AtMostOnce(c) && |fields| == |c.hooks| && AllPass(c) && !SentIsOwn(c, Defaulted(fields, defaults))
    ensures !InsertsChecked(c, fields, defaults, g)
  {
    var full := Defaulted(fields, defaults);
    var own, sent := AllOwn(c, full), AllSent(c, full);
    var k :| 0 <= k < |full| && sent[k] !in own;
    var f := sent[k];
    g := x => if x == f then Err("unchecked") else Ok;
    CheckedSave(c, g, fields, defaults);
    assert forall j :: 0 <= j < |full| ==> own[j] in own;
    assert AllSpecs(c, full) in RunSave(c.(check := g), fields, defaults).0.log;
  }

  /** A save with another check: what it inserts, in the closed forms of the given chain. */
  lemma CheckedSave<F, N, S>(c: Chain<F, N, S>, g: F -> Outcome, fields: seq<F>, defaults: F -> F)
    requires AtMostOnce(c) && |fields| == |c.hooks|
    ensures var full := Defaulted(fields, defaults);
            && RunSave(c.(check := g), fields, defaults).0.log ==
               (if fields != [] && LetsThrough(c.(check := g), full) then [AllSpecs(c, full)] else [])
            && (LetsThrough(c.(check := g), full) <==>
                  forall k :: 0 <= k < |full| ==> Passes(c.hooks[k], 0) && g(AllOwn(c, full)[k]).Ok?)
  {
    var full := Defaulted(fields, defaults);
    BatchExactlyWhen(c.(check := g), fields, defaults);
    assert AllSpecs(c.(check := g), full) == AllSpecs(c, full);
  }

  /** A hook that replaces the mutation gets a row inserted that the check refuses. */
  lemma ReplacedRowIsUnchecked(batch: (nat, seq<Option<int>>) -> Batch)
    ensures var replace: Hook<int> := Hook([Call(x => x, Fresh(_ => -1))], (_, f) => f, outcomes => if outcomes == [Ok] then Ok else Err(""));
            var check := (x: int) => if x < 0 then Err("negative") else Ok;
            var c: Chain<int, int, int> := Chain([[replace]], check, x => x, x => x, true, batch);
            RunSave(c, [7], x => x).0.log == [[Some(-1)]] && check(-1).Err?
  {
    var replace: Hook<int> := Hook([Call(x => x, Fresh(_ => -1))], (_, f) => f, outcomes => if outcomes == [Ok] then Ok else Err(""));
    var check := (x: int) => if x < 0 then Err("negative") else Ok;
    var c: Chain<int, int, int> := Chain([[replace]], check, x => x, x => x, true, batch);
    BatchExactlyWhen(c, [7], x => x);
    var full := Defaulted([7], x => x);
    assert full == [7];
    assert OwnFields(c.hooks[0], 0, 7) == 7 && SentFields(c.hooks[0], 0, 7) == -1;
    assert AllSpecs(c, full) == [Some(-1)];
  }

  /** Hooks that always hand on the mutation they were given send what is checked. */
  lemma {:induction false} SameSendsOwn<F>(hooks: seq<Hook<F>>, h: nat, f: F)
    requires forall k, j :: 0 <= k < |hooks| && 0 <= j < |hooks[k].calls| ==> hooks[k].calls[j].pass.Same?
    ensures SentFields(hooks, h, f) == OwnFields(hooks, h, f)
    decreases |hooks| - h
  {
    if h >= |hooks| || hooks[h].calls == [] {
    } else {
      SameSendsOwn(hooks, h + 1, hooks[h].calls[0].edit(f));
    }
  }

  // ------------------------------------------------------------------ bulk against single

  /** `withHooks` and `sqlSave`: the mutation that was handed on is taken over and then checked. The result is the row's fields, if any. */
  function HookedSave<F>(hooks: seq<Hook<F>>, h: nat, check: F -> Outcome, f: F): Option<F>
    decreases |hooks| - h
  {
    if h >= |hooks| then if check(f).Ok? then Some(f) else None
    else if hooks[h].calls == [] then None
    else
      var call := hooks[h].calls[0];
      var edited := call.edit(f);
      HookedSave(hooks, h + 1, check, if call.pass.Same? then edited else call.pass.make(edited))
  }

  /** `Save` of a single builder: an error of `defaults` is returned at once. */
  function SingleSave<F>(hooks: seq<Hook<F>>, check: F -> Outcome, defaults: F -> F, failed: F -> bool, f: F): Option<F> {
    if failed(f) then None else HookedSave(hooks, 0, check, defaults(f))
  }

  lemma {:induction false} HookedSaveExactlyWhen<F>(hooks: seq<Hook<F>>, h: nat, check: F -> Outcome, f: F)
    ensures HookedSave(hooks, h, check, f) ==
            if Passes(hooks, h) && check(SentFields(hooks, h, f)).Ok? then Some(SentFields(hooks, h, f)) else None
    decreases |hooks| - h
  {
    if h >= |hooks| || hooks[h].calls == [] {
    } else {
      var call := hooks[h].calls[0];
      var edited := call.edit(f);
      HookedSaveExactlyWhen(hooks, h + 1, check, if call.pass.Same? then edited else call.pass.make(edited));
      assert Passes(hooks, h) <==> Passes(hooks, h + 1);
    }
  }

  /** A single save inserts what reaches it exactly when defaulting succeeded, every hook passes and that very mutation is valid. */
  lemma SingleInsertsExactlyWhen<F>(hooks: seq<Hook<F>>, check: F -> Outcome, defaults: F -> F, failed: F -> bool, f: F)
    ensures var sent := SentFields(hooks, 0, defaults(f));
            SingleSave(hooks, check, defaults, failed, f) ==
            if !failed(f) && Passes(hooks, 0) && check(sent).Ok? then Some(sent) else None
  {
    HookedSaveExactlyWhen(hooks, 0, check, defaults(f));
  }

  /** The batches of a save that inserts this row, if any. */
  function OneRow<F, N, S>(c: Chain<F, N, S>, row: Option<F>): seq<seq<Option<S>>> {
    match row
    case None => []
    case Some(f) => [[Some(c.spec(f))]]
  }

  /**
   * A bulk save of one builder inserts what a single save inserts, for every check, if and
   * only if its hooks never let the run through, or defaulting succeeded and the sent fields
   * are the checked ones.
   */
  lemma BulkOfOneAgreesWithSingle<F(!new), N, S>(c: Chain<F, N, S>, f: F, defaults: F -> F, failed: F -> bool)
    requires AtMostOnce(c) && |c.hooks| == 1
    ensures (forall g: F -> Outcome ::
               RunSave(c.(check := g), [f], defaults).0.log == OneRow(c, SingleSave(c.hooks[0], g, defaults, failed, f))) <==>
            (Passes(c.hooks[0], 0) ==>
               !failed(f) && SentFields(c.hooks[0], 0, defaults(f)) == OwnFields(c.hooks[0], 0, defaults(f)))
  {
    var sent, own := SentFields(c.hooks[0], 0, defaults(f)), OwnFields(c.hooks[0], 0, defaults(f));
    forall g: F -> Outcome
      ensures RunSave(c.(check := g), [f], defaults).0.log == if Passes(c.hooks[0], 0) && g(own).Ok? then [[Some(c.spec(sent))]] else []
      ensures SingleSave(c.hooks[0], g, defaults, failed, f) ==
              if !failed(f) && Passes(c.hooks[0], 0) && g(sent).Ok? then Some(sent) else None
    {
      CheckedSave(c, g, [f], defaults);
      assert Defaulted([f], defaults)[0] == defaults(f);
      assert AllSpecs(c, Defaulted([f], defaults)) == [Some(c.spec(sent))];
      SingleInsertsExactlyWhen(c.hooks[0], g, defaults, failed, f);
    }
    if Passes(c.hooks[0], 0) && (failed(f) || sent != own) {
      var g: F -> Outcome := x => if x == own then Ok else Err("invalid");
      assert g(own).Ok? && (sent != own ==> g(sent).Err?);
      assert RunSave(c.(check := g), [f], defaults).0.log != OneRow(c, SingleSave(c.hooks[0], g, defaults, failed, f));
    }
  }
}
