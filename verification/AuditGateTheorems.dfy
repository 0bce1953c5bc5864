/**
 * What the audit gate decides, stated on its two inputs; and how the deduplicating scan
 * relates to the scan that looks at every finding.
 */
module AuditGateTheorems {
  import opened Prelude
  import opened AuditParser
  import opened AuditGate

  // ------------------------------------------------------------------ the index

  /** Every exception is usable, and no two have the same key. */
  ghost predicate UniquelyKeyed(slots: seq<Option<(Key, Entry)>>) {
    && (forall i :: 0 <= i < |slots| ==> slots[i].Some?)
    && (forall i, j :: 0 <= i < j < |slots| ==> slots[i].value.0 != slots[j].value.0)
  }

  /** No exception was reported exactly when all are usable and uniquely keyed; the index then holds exactly them. */
  lemma {:induction false} IndexedFacts(slots: seq<Option<(Key, Entry)>>)
    ensures Indexed(slots).1 == 0 <==> UniquelyKeyed(slots)
    ensures Indexed(slots).1 == 0 ==> forall k, v :: (k in Indexed(slots).0 && Indexed(slots).0[k] == v) <==> Some((k, v)) in slots
  {
    if slots == [] {
    } else {
      var before, slot := slots[..|slots| - 1], slots[|slots| - 1];
      IndexedFacts(before);
      assert slots == before + [slot];
      var index := Indexed(before).0;
      if Indexed(before).1 == 0 && slot.Some? {
        var k := slot.value.0;
        if k in index {
          assert Some((k, index[k])) in before;
          var i :| 0 <= i < |before| && before[i] == Some((k, index[k]));
          assert slots[i].value.0 == slots[|before|].value.0;
        } else {
          forall i | 0 <= i < |before| ensures before[i].value.0 != k {
            assert Some((before[i].value.0, before[i].value.1)) in before;
          }
        }
      }
    }
  }

  // ------------------------------------------------------------------ the scan

  ghost predicate HasKey(cs: seq<Class>, k: Key) {
    exists c :: c in cs && c.Counted? && c.key == k
  }

  /** The severity of the first counted finding with key k. */
  function FirstSev(cs: seq<Class>, k: Key): Option<string> {
    if cs == [] then None
    else
      var before := FirstSev(cs[..|cs| - 1], k);
      var c := cs[|cs| - 1];
      if before.Some? then before else if c.Counted? && c.key == k then Some(c.sev) else None
  }

  lemma {:induction false} FirstSevFacts(cs: seq<Class>, k: Key)
    ensures FirstSev(cs, k).Some? <==> HasKey(cs, k)
    ensures FirstSev(cs, k).Some? ==> Counted(k, FirstSev(cs, k).value) in cs
  {
    if cs == [] {
    } else {
      FirstSevFacts(cs[..|cs| - 1], k);
      assert cs == cs[..|cs| - 1] + [cs[|cs| - 1]];
    }
  }

  /** The first finding with key k has the severity its exception names. */
  ghost predicate FirstMatches(cs: seq<Class>, index: map<Key, Entry>, k: Key) {
    FirstSev(cs, k).Some? ==> !Mismatch(index, k, FirstSev(cs, k).value)
  }

  ghost predicate NoErrors(cs: seq<Class>, index: map<Key, Entry>) {
    NoAdvisory !in cs && forall k :: FirstMatches(cs, index, k)
  }

  ghost predicate Describes(r: Report, cs: seq<Class>, index: map<Key, Entry>, today: int) {
    && (forall k :: k in r.seen <==> HasKey(cs, k))
    && (forall k :: k in r.missing <==> HasKey(cs, k) && k !in index)
    && (forall k :: k in r.expired <==> HasKey(cs, k) && k in index && index[k].expires < today)
  }

  lemma HasKeySnoc(before: seq<Class>, c: Class, k: Key)
    ensures HasKey(before + [c], k) <==> HasKey(before, k) || (c.Counted? && c.key == k)
  {
    assert c in before + [c];
    if HasKey(before, k) {
      var d :| d in before && d.Counted? && d.key == k;
      assert d in before + [c];
    }
  }

  lemma {:induction false} ScannedDescribes(cs: seq<Class>, index: map<Key, Entry>, today: int)
    ensures Describes(Scanned(cs, index, today), cs, index, today)
  {
    if cs == [] {
    } else {
      var before, c := cs[..|cs| - 1], cs[|cs| - 1];
      ScannedDescribes(before, index, today);
      assert cs == before + [c];
      forall k ensures HasKey(cs, k) <==> HasKey(before, k) || (c.Counted? && c.key == k) {
        HasKeySnoc(before, c, k);
      }
    }
  }

  lemma {:induction false} ScannedErrors(cs: seq<Class>, index: map<Key, Entry>, today: int)
    ensures Scanned(cs, index, today).errors == 0 <==> NoErrors(cs, index)
  {
    if cs == [] {
    } else {
      var before, c := cs[..|cs| - 1], cs[|cs| - 1];
      ScannedErrors(before, index, today);
      ScannedDescribes(before, index, today);
      assert cs == before + [c];
      if c.Counted? {
        FirstSevFacts(before, c.key);
        var first := FirstSev(before, c.key).None?;
        assert forall k :: FirstMatches(cs, index, k) <==> FirstMatches(before, index, k) && (first && k == c.key ==> !Mismatch(index, k, c.sev));
        assert NoErrors(cs, index) <==> NoErrors(before, index) && (first ==> !Mismatch(index, c.key, c.sev)) by {
          assert first ==> (FirstMatches(cs, index, c.key) <==> !Mismatch(index, c.key, c.sev));
        }
      } else {
        assert forall k :: FirstMatches(cs, index, k) <==> FirstMatches(before, index, k);
      }
    }
  }

  // ------------------------------------------------------------------ the verdict

  /** The exception has key k, has not expired, and names no severity or that of the key's first finding. */
  ghost predicate Covers(env: Env, exc: Dict, cs: seq<Class>, k: Key) {
    && Usable(env, exc) && KeyOf(env, exc) == k && EntryOf(env, exc).expires >= env.today
    && (EntryOf(env, exc).severity == "" || FirstSev(cs, k) == Some(EntryOf(env, exc).severity))
  }

  ghost predicate Covered(env: Env, excs: seq<Dict>, cs: seq<Class>, k: Key) {
    exists i :: 0 <= i < |excs| && Covers(env, excs[i], cs, k)
  }

  /** The condition on the two inputs under which the gate lets the build pass. */
  ghost predicate Accepts(env: Env, audit: Json, lines: seq<string>) {
    && Parse(lines).Some? && Findings(env, audit).Some?
    && var excs, cs := Parse(lines).value, Classes(env, Findings(env, audit).value);
       && (forall i :: 0 <= i < |excs| ==> Usable(env, excs[i]))
       && (forall i, j :: 0 <= i < j < |excs| ==> KeyOf(env, excs[i]) != KeyOf(env, excs[j]))
       && Raises !in cs && NoAdvisory !in cs
       && (forall c :: c in cs && c.Counted? ==> Covered(env, excs, cs, c.key))
  }

  lemma CoveredExactlyWhen(env: Env, excs: seq<Dict>, cs: seq<Class>, k: Key)
    requires UniquelyKeyed(Slots(env, excs)) && HasKey(cs, k)
    ensures var index := Indexed(Slots(env, excs)).0;
            Covered(env, excs, cs, k) <==> k in index && index[k].expires >= env.today && FirstMatches(cs, index, k)
  {
    var slots := Slots(env, excs);
    IndexedFacts(slots);
    FirstSevFacts(cs, k);
    var index := Indexed(slots).0;
    if Covered(env, excs, cs, k) {
      var i :| 0 <= i < |excs| && Covers(env, excs[i], cs, k);
      assert slots[i] == Some((k, EntryOf(env, excs[i])));
    }
    if k in index && index[k].expires >= env.today && FirstMatches(cs, index, k) {
      assert Some((k, index[k])) in slots;
      var i :| 0 <= i < |slots| && slots[i] == Some((k, index[k]));
      assert Covers(env, excs[i], cs, k);
    }
  }

  lemma UsableExactlyKeyed(env: Env, excs: seq<Dict>)
    ensures UniquelyKeyed(Slots(env, excs)) <==>
            && (forall i :: 0 <= i < |excs| ==> Usable(env, excs[i]))
            && (forall i, j :: 0 <= i < j < |excs| ==> KeyOf(env, excs[i]) != KeyOf(env, excs[j]))
  {
    var slots := Slots(env, excs);
    assert forall i :: 0 <= i < |excs| ==> slots[i] == Slot(env, excs[i]);
    if UniquelyKeyed(slots) {
      forall i | 0 <= i < |excs| ensures Usable(env, excs[i]) {
        assert slots[i].Some?;
      }
      forall i, j | 0 <= i < j < |excs| ensures KeyOf(env, excs[i]) != KeyOf(env, excs[j]) {
        assert slots[i].value.0 != slots[j].value.0;
      }
    }
  }

  /** The gate passes if and only if every exception is usable and uniquely keyed and every counted finding is covered. */
  lemma GatePassesExactlyWhen(env: Env, audit: Json, lines: seq<string>)
    ensures Verdict(env, audit, lines) == Validated <==> Accepts(env, audit, lines)
  {
    if Parse(lines).Some? && Findings(env, audit).Some? {
      var excs, cs := Parse(lines).value, Classes(env, Findings(env, audit).value);
      var slots := Slots(env, excs);
      UsableExactlyKeyed(env, excs);
      IndexedFacts(slots);
      if UniquelyKeyed(slots) {
        CleanExactlyWhen(cs, Indexed(slots).0, env.today);
        forall k | HasKey(cs, k)
          ensures Covered(env, excs, cs, k) <==>
                  k in Indexed(slots).0 && Indexed(slots).0[k].expires >= env.today && FirstMatches(cs, Indexed(slots).0, k)
        {
          CoveredExactlyWhen(env, excs, cs, k);
        }
        assert forall c :: c in cs && c.Counted? ==> HasKey(cs, c.key);
      }
    }
  }

  /** A clean scan, per key. */
  lemma CleanExactlyWhen(cs: seq<Class>, index: map<Key, Entry>, today: int)
    ensures Clean(Scanned(cs, index, today)) <==>
            NoAdvisory !in cs && forall k :: HasKey(cs, k) ==> k in index && index[k].expires >= today && FirstMatches(cs, index, k)
  {
    var r := Scanned(cs, index, today);
    ScannedDescribes(cs, index, today);
    ScannedErrors(cs, index, today);
    forall k ensures !HasKey(cs, k) ==> FirstMatches(cs, index, k) {
      FirstSevFacts(cs, k);
    }
    assert r.missing == [] <==> forall k :: k !in r.missing by {
      assert r.missing != [] ==> r.missing[0] in r.missing;
    }
    assert r.expired == [] <==> forall k :: k !in r.expired by {
      assert r.expired != [] ==> r.expired[0] in r.expired;
    }
  }

  // ------------------------------------------------------------------ against the scan of every finding

  /** The scan without `seen`. */
  function NaiveStep(r: Report, index: map<Key, Entry>, today: int, c: Class): Report {
    match c
    case Raises => r
    case Skipped => r
    case NoAdvisory => r.(errors := r.errors + 1)
    case Counted(key, sev) => Judged(r.(seen := r.seen + {key}), index, today, key, sev)
  }

  function NaiveScanned(cs: seq<Class>, index: map<Key, Entry>, today: int): Report {
    if cs == [] then BLANK else NaiveStep(NaiveScanned(cs[..|cs| - 1], index, today), index, today, cs[|cs| - 1])
  }

  lemma {:induction false} NaiveFacts(cs: seq<Class>, index: map<Key, Entry>, today: int)
    ensures Describes(NaiveScanned(cs, index, today), cs, index, today)
    ensures NaiveScanned(cs, index, today).errors == 0 <==>
            NoAdvisory !in cs && forall c :: c in cs && c.Counted? ==> !Mismatch(index, c.key, c.sev)
  {
    if cs == [] {
    } else {
      var before, c := cs[..|cs| - 1], cs[|cs| - 1];
      NaiveFacts(before, index, today);
      assert cs == before + [c];
      forall k ensures HasKey(cs, k) <==> HasKey(before, k) || (c.Counted? && c.key == k) {
        HasKeySnoc(before, c, k);
      }
    }
  }

  /** Findings with the same key have the same severity. */
  ghost predicate Agree(cs: seq<Class>) {
    forall c, d :: c in cs && d in cs && c.Counted? && d.Counted? && c.key == d.key ==> c.sev == d.sev
  }

  /**
   * Whether anything is missing or expired never depends on the deduplication; and when
   * findings with equal keys agree on severity, neither does the verdict.
   */
  lemma DedupRefinesNaive(cs: seq<Class>, index: map<Key, Entry>, today: int)
    ensures Scanned(cs, index, today).missing == [] <==> NaiveScanned(cs, index, today).missing == []
    ensures Scanned(cs, index, today).expired == [] <==> NaiveScanned(cs, index, today).expired == []
    ensures Agree(cs) ==> (Clean(Scanned(cs, index, today)) <==> Clean(NaiveScanned(cs, index, today)))
  {
    var r, n := Scanned(cs, index, today), NaiveScanned(cs, index, today);
    ScannedDescribes(cs, index, today);
    ScannedErrors(cs, index, today);
    NaiveFacts(cs, index, today);
    SameEmptiness(r.missing, n.missing);
    SameEmptiness(r.expired, n.expired);
    if Agree(cs) {
      AgreeingErrors(cs, index);
    }
  }

  lemma SameEmptiness(a: seq<Key>, b: seq<Key>)
    requires forall k :: k in a <==> k in b
    ensures a == [] <==> b == []
  {
    assert a != [] ==> a[0] in b;
    assert b != [] ==> b[0] in a;
  }

  lemma AgreeingErrors(cs: seq<Class>, index: map<Key, Entry>)
    requires Agree(cs)
    ensures (forall k :: FirstMatches(cs, index, k)) <==> forall c :: c in cs && c.Counted? ==> !Mismatch(index, c.key, c.sev)
  {
    forall k ensures FirstSev(cs, k).Some? ==> Counted(k, FirstSev(cs, k).value) in cs {
      FirstSevFacts(cs, k);
    }
    forall c | c in cs && c.Counted? ensures FirstSev(cs, c.key) == Some(c.sev) {
      FirstSevFacts(cs, c.key);
    }
    if forall k :: FirstMatches(cs, index, k) {
      forall c | c in cs && c.Counted? ensures !Mismatch(index, c.key, c.sev) {
        assert FirstMatches(cs, index, c.key);
      }
    }
  }

  // ------------------------------------------------------------------ order of findings and exceptions

  /** A single out-of-order pair changes the verdict: the exception says "high", the findings disagree. */
  lemma OrderMatters(k: Key, today: int)
    ensures var index := map[k := Entry("high", today)];
            && Clean(Scanned([Counted(k, "high"), Counted(k, "critical")], index, today))
            && !Clean(Scanned([Counted(k, "critical"), Counted(k, "high")], index, today))
            && !Clean(NaiveScanned([Counted(k, "high"), Counted(k, "critical")], index, today))
  {
    var index := map[k := Entry("high", today)];
    var high, critical := Counted(k, "high"), Counted(k, "critical");
    assert [high, critical][..1] == [high] && [critical, high][..1] == [critical];
    assert [high][..0] == [] && [critical][..0] == [];
    assert Scanned([high], index, today) == Report({k}, [], [], 0);
    assert Scanned([critical], index, today).errors == 1;
    assert NaiveScanned([high], index, today) == Report({k}, [], [], 0);
    assert NaiveScanned([high, critical], index, today).errors == 1;
  }

  ghost predicate Permutes<T>(a: seq<T>, b: seq<T>) {
    multiset(a) == multiset(b)
  }

  lemma PermutesMembers<T>(a: seq<T>, b: seq<T>)
    requires Permutes(a, b)
    ensures forall x :: x in a <==> x in b
  {
    forall x ensures x in a <==> x in b {
      assert x in a <==> x in multiset(a);
      assert x in b <==> x in multiset(b);
    }
  }

  lemma {:induction false} FirstSevOfHead(c: Class, rest: seq<Class>)
    requires c.Counted?
    ensures FirstSev([c] + rest, c.key) == Some(c.sev)
    decreases |rest|
  {
    if rest == [] {
      assert [c] + rest == [c] && [c][..0] == [];
    } else {
      assert ([c] + rest)[..|rest|] == [c] + rest[..|rest| - 1];
      FirstSevOfHead(c, rest[..|rest| - 1]);
    }
  }

  /** A permutation that starts with a given member. */
  lemma BroughtForward(cs: seq<Class>, c: Class) returns (rest: seq<Class>)
    requires c in cs
    ensures Permutes(cs, [c] + rest)
  {
    var i :| 0 <= i < |cs| && cs[i] == c;
    rest := cs[..i] + cs[i + 1..];
    assert cs == cs[..i] + ([c] + cs[i + 1..]);
  }

  ghost predicate OrderBlind(cs: seq<Class>) {
    forall cs', index, today :: Permutes(cs, cs') ==> (Clean(Scanned(cs, index, today)) <==> Clean(Scanned(cs', index, today)))
  }

  /**
   * The verdict on findings is the same in every order, for every index, exactly when
   * findings with equal keys agree on severity (or some finding has no advisory ID, so
   * that every order fails).
   */
  lemma OrderBlindExactlyWhenAgree(cs: seq<Class>)
    ensures OrderBlind(cs) <==> NoAdvisory in cs || Agree(cs)
  {
    if NoAdvisory in cs || Agree(cs) {
      forall cs', index, today | Permutes(cs, cs') ensures Clean(Scanned(cs, index, today)) <==> Clean(Scanned(cs', index, today)) {
        AgreeingPermutation(cs, cs', index, today);
      }
    } else {
      var c, d :| c in cs && d in cs && c.Counted? && d.Counted? && c.key == d.key && c.sev != d.sev;
      if c.sev != "" { Disagreement(cs, c, d); } else { Disagreement(cs, d, c); }
    }
  }

  lemma AgreeingPermutation(cs: seq<Class>, cs': seq<Class>, index: map<Key, Entry>, today: int)
    requires Permutes(cs, cs') && (NoAdvisory in cs || Agree(cs))
    ensures Clean(Scanned(cs, index, today)) <==> Clean(Scanned(cs', index, today))
  {
    PermutesMembers(cs, cs');
    CleanExactlyWhen(cs, index, today);
    CleanExactlyWhen(cs', index, today);
    if NoAdvisory !in cs {
      forall k ensures HasKey(cs, k) <==> HasKey(cs', k)
               ensures HasKey(cs, k) ==> FirstSev(cs, k) == FirstSev(cs', k) {
        FirstSevFacts(cs, k);
        FirstSevFacts(cs', k);
      }
      assert forall k :: HasKey(cs, k) ==> (FirstMatches(cs, index, k) <==> FirstMatches(cs', index, k));
    }
  }

  /** An index that names the severity of `c` for its key and no severity for any other. */
  ghost function Names(cs: seq<Class>, c: Class): map<Key, Entry>
    requires c.Counted?
  {
    map d | d in cs && d.Counted? :: d.key := Entry(if d.key == c.key then c.sev else "", 0)
  }

  lemma Disagreement(cs: seq<Class>, c: Class, d: Class)
    requires c in cs && d in cs && c.Counted? && d.Counted? && c.key == d.key && c.sev != d.sev && c.sev != ""
    requires NoAdvisory !in cs
    ensures !OrderBlind(cs)
  {
    var rc := BroughtForward(cs, c);
    var rd := BroughtForward(cs, d);
    NamedFirst(cs, c, rc);
    OtherFirst(cs, c, d, rd);
  }

  /** With the named finding first, the scan is clean. */
  lemma NamedFirst(cs: seq<Class>, c: Class, rest: seq<Class>)
    requires c.Counted? && NoAdvisory !in cs && Permutes(cs, [c] + rest)
    ensures Clean(Scanned([c] + rest, Names(cs, c), 0))
  {
    PermutesMembers(cs, [c] + rest);
    FirstSevOfHead(c, rest);
    CleanExactlyWhen([c] + rest, Names(cs, c), 0);
    forall k | HasKey([c] + rest, k) ensures k in Names(cs, c) && FirstMatches([c] + rest, Names(cs, c), k) {
      FirstSevFacts([c] + rest, k);
    }
  }

  /** With a finding of the same key and another severity first, it is not. */
  lemma OtherFirst(cs: seq<Class>, c: Class, d: Class, rest: seq<Class>)
    requires c in cs && c.Counted? && d.Counted? && c.key == d.key && c.sev != d.sev && c.sev != ""
    requires Permutes(cs, [d] + rest)
    ensures !Clean(Scanned([d] + rest, Names(cs, c), 0))
  {
    FirstSevOfHead(d, rest);
    CleanExactlyWhen([d] + rest, Names(cs, c), 0);
    assert c.key in Names(cs, c) && d in [d] + rest;
    assert HasKey([d] + rest, d.key) && !FirstMatches([d] + rest, Names(cs, c), d.key);
  }

  // Exceptions.

  lemma {:induction false} DistinctByCount<T>(s: seq<T>)
    ensures Distinct(s) <==> forall x :: x in s ==> multiset(s)[x] == 1
  {
    if s == [] {
    } else {
      var before, last := s[..|s| - 1], s[|s| - 1];
      DistinctByCount(before);
      assert s == before + [last];
      assert last in before <==> multiset(before)[last] > 0;
      assert Distinct(s) <==> Distinct(before) && last !in before by {
        if Distinct(s) {
          assert forall i :: 0 <= i < |before| ==> before[i] == s[i] && s[i] != s[|before|];
        }
      }
      assert forall x :: x in before ==> multiset(s)[x] == multiset(before)[x] + (if x == last then 1 else 0);
      assert multiset(s)[last] == multiset(before)[last] + 1;
    }
  }

  /** Every order of the exceptions gives the same index, or is rejected in every order. */
  lemma ExceptionOrderIrrelevant(a: seq<Option<(Key, Entry)>>, b: seq<Option<(Key, Entry)>>)
    requires Permutes(a, b)
    ensures Indexed(a).1 == 0 <==> Indexed(b).1 == 0
    ensures Indexed(a).1 == 0 ==> Indexed(a).0 == Indexed(b).0
  {
    IndexedFacts(a);
    IndexedFacts(b);
    PermutesMembers(a, b);
    if UniquelyKeyed(a) { UniqueByMembers(a, b); }
    if UniquelyKeyed(b) { UniqueByMembers(b, a); }
    if Indexed(a).1 == 0 {
      var ia, ib := Indexed(a).0, Indexed(b).0;
      forall k ensures k in ia <==> k in ib
               ensures k in ia ==> ia[k] == ib[k] {
        if k in ia { assert Some((k, ia[k])) in b; }
        if k in ib { assert Some((k, ib[k])) in a; }
      }
    }
  }

  lemma UniqueByMembers(a: seq<Option<(Key, Entry)>>, b: seq<Option<(Key, Entry)>>)
    requires Permutes(a, b) && UniquelyKeyed(a)
    ensures UniquelyKeyed(b)
  {
    DistinctByCount(a);
    DistinctByCount(b);
    PermutesMembers(a, b);
    assert Distinct(b);
    forall i | 0 <= i < |b| ensures b[i].Some? {
      assert b[i] in a;
    }
    forall i, j | 0 <= i < j < |b| ensures b[i].value.0 != b[j].value.0 {
      assert b[i] in a && b[j] in a && b[i] != b[j];
      var i', j' :| 0 <= i' < |a| && 0 <= j' < |a| && a[i'] == b[i] && a[j'] == b[j];
      assert i' != j';
      if i' < j' { assert a[i'].value.0 != a[j'].value.0; } else { assert a[j'].value.0 != a[i'].value.0; }
    }
  }

  /** Findings that agree and exceptions may both come in any order. */
  lemma VerdictOrderIrrelevant(cs: seq<Class>, cs': seq<Class>, a: seq<Option<(Key, Entry)>>, b: seq<Option<(Key, Entry)>>, today: int)
    requires Permutes(cs, cs') && Agree(cs) && Permutes(a, b)
    ensures Indexed(a).1 == 0 && Clean(Scanned(cs, Indexed(a).0, today)) <==>
            Indexed(b).1 == 0 && Clean(Scanned(cs', Indexed(b).0, today))
  {
    ExceptionOrderIrrelevant(a, b);
    AgreeingPermutation(cs, cs', Indexed(b).0, today);
  }
}
