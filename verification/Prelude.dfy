/** Small value types and sequence functions shared by every module. */
module Prelude {
  datatype Option<+T> = None | Some(value: T)

  datatype Result<+T, +E> = Success(value: T) | Failure(error: E)

  /** The elements of `s` that satisfy `p`, in order. */
  function Filter<T>(s: seq<T>, p: T -> bool): seq<T> {
    if s == [] then [] else
      Filter(s[..|s| - 1], p) + (if p(s[|s| - 1]) then [s[|s| - 1]] else [])
  }

  /** One more element at the end of a prefix extends the filtered prefix by that element or not at all. */
  lemma FilterSnoc<T>(s: seq<T>, p: T -> bool, i: nat)
    requires i < |s|
    ensures Filter(s[..i + 1], p) == Filter(s[..i], p) + (if p(s[i]) then [s[i]] else [])
  {
    assert s[..i + 1][..i] == s[..i];
  }

  lemma {:induction false} FilterMember<T>(s: seq<T>, p: T -> bool, x: T)
    ensures x in Filter(s, p) <==> x in s && p(x)
  {
    if s == [] {
    } else {
      FilterMember(s[..|s| - 1], p, x);
      assert s == s[..|s| - 1] + [s[|s| - 1]];
    }
  }

  lemma {:induction false} FilterCongruence<T>(s: seq<T>, p: T -> bool, q: T -> bool)
    requires forall x :: x in s ==> p(x) == q(x)
    ensures Filter(s, p) == Filter(s, q)
  {
    if s == [] {
    } else {
      FilterCongruence(s[..|s| - 1], p, q);
    }
  }

  ghost predicate Distinct<T>(s: seq<T>) {
    forall i, j :: 0 <= i < j < |s| ==> s[i] != s[j]
  }

  /** Filtering twice is filtering by the conjunction. */
  lemma {:induction false} FilterFilter<T>(s: seq<T>, p: T -> bool, q: T -> bool, both: T -> bool)
    requires forall x :: x in s ==> both(x) == (p(x) && q(x))
    ensures Filter(Filter(s, p), q) == Filter(s, both)
  {
    if s == [] {
    } else {
      var before, last := s[..|s| - 1], s[|s| - 1];
      FilterFilter(before, p, q, both);
      var kept := Filter(before, p);
      if p(last) {
        assert (kept + [last])[..|kept|] == kept;
        assert Filter(kept + [last], q) == Filter(kept, q) + (if q(last) then [last] else []);
      } else {
        assert Filter(s, p) == kept;
      }
    }
  }

  lemma {:induction false} FilterNone<T>(s: seq<T>, p: T -> bool)
    requires forall x :: x in s ==> !p(x)
    ensures Filter(s, p) == []
  {
    if s == [] {
    } else {
      FilterNone(s[..|s| - 1], p);
    }
  }

  /** The results of `f` on the items, one after the other; None if one of them is None. */
  function Collect<T, R>(items: seq<T>, f: T -> Option<seq<R>>): Option<seq<R>> {
    if items == [] then Some([])
    else match (Collect(items[..|items| - 1], f), f(items[|items| - 1]))
      case (Some(before), Some(last)) => Some(before + last)
      case _ => None
  }

  lemma {:induction false} CollectFacts<T, R>(items: seq<T>, f: T -> Option<seq<R>>)
    ensures Collect(items, f).None? <==> exists x :: x in items && f(x).None?
    ensures Collect(items, f).Some? ==>
              forall r :: r in Collect(items, f).value <==> exists x :: x in items && f(x).Some? && r in f(x).value
  {
    if items == [] {
    } else {
      CollectFacts(items[..|items| - 1], f);
      assert items == items[..|items| - 1] + [items[|items| - 1]];
    }
  }

  /** `owners` grows, and says from which item each result comes. */
  ghost predicate OwnedBy<T, R>(items: seq<T>, f: T -> Option<seq<R>>, results: seq<R>, owners: seq<nat>) {
    && |owners| == |results|
    && (forall k :: 0 <= k < |owners| ==> owners[k] < |items| && f(items[owners[k]]).Some? && results[k] in f(items[owners[k]]).value)
    && (forall k, l :: 0 <= k < l < |owners| ==> owners[k] <= owners[l])
  }

  /** The results come in the order of their items. */
  lemma {:induction false} CollectInOrder<T, R>(items: seq<T>, f: T -> Option<seq<R>>) returns (owners: seq<nat>)
    requires Collect(items, f).Some?
    ensures OwnedBy(items, f, Collect(items, f).value, owners)
  {
    if items == [] {
      owners := [];
    } else {
      var before, n := items[..|items| - 1], |items| - 1;
      owners := CollectInOrder(before, f);
      assert forall k :: 0 <= k < |owners| ==> items[owners[k]] == before[owners[k]];
      var last := f(items[n]).value;
      assert Collect(items, f).value == Collect(before, f).value + last;
      owners := owners + seq(|last|, k requires 0 <= k < |last| => n);
    }
  }

  lemma CollectSnoc<T, R>(items: seq<T>, f: T -> Option<seq<R>>, i: nat)
    requires i < |items|
    ensures Collect(items[..i + 1], f) ==
              match (Collect(items[..i], f), f(items[i])) case (Some(before), Some(last)) => Some(before + last) case _ => None
  {
    assert items[..i + 1][..i] == items[..i];
  }

  lemma CollectStops<T, R>(items: seq<T>, f: T -> Option<seq<R>>, i: nat)
    requires i < |items| && f(items[i]).None?
    ensures Collect(items, f).None?
  {
    CollectFacts(items, f);
    assert items[i] in items;
  }

  // ------------------------------------------------------------------ positions

  ghost predicate Increasing(ps: seq<nat>, bound: nat) {
    && (forall k :: 0 <= k < |ps| ==> ps[k] < bound)
    && (forall k, l :: 0 <= k < l < |ps| ==> ps[k] < ps[l])
  }

  /** The positions, in order, whose key did not occur before. */
  ghost predicate FirstsAt<K>(keys: seq<K>, ps: seq<nat>) {
    Increasing(ps, |keys|) && forall p: nat :: p < |keys| ==> (p in ps <==> keys[p] !in keys[..p])
  }

  lemma FirstsSnoc<K>(keys: seq<K>, last: K, ps: seq<nat>)
    requires FirstsAt(keys, ps)
    ensures FirstsAt(keys + [last], if last in keys then ps else ps + [|keys|])
  {
    var all, ps' := keys + [last], if last in keys then ps else ps + [|keys|];
    forall p: nat | p < |all| ensures p in ps' <==> all[p] !in all[..p] {
      assert all[..p] == keys[..p];
      assert keys[..|keys|] == keys;
      if p == |keys| {
        assert forall k :: 0 <= k < |ps| ==> ps[k] != p;
      }
    }
  }

  /** `r` holds the elements of `s` at these positions. */
  ghost predicate TakenAt<T>(s: seq<T>, ps: seq<nat>, r: seq<T>) {
    |ps| == |r| && forall k :: 0 <= k < |ps| ==> ps[k] < |s| && r[k] == s[ps[k]]
  }

  lemma TakenSnoc<T>(s: seq<T>, last: T, ps: seq<nat>, r: seq<T>)
    requires TakenAt(s, ps, r)
    ensures TakenAt(s + [last], ps, r) && TakenAt(s + [last], ps + [|s|], r + [last])
  {
  }

  /** The positions, in order, whose element satisfies `p`. */
  ghost predicate KeptAt<T>(s: seq<T>, p: T -> bool, ps: seq<nat>) {
    Increasing(ps, |s|) && forall i: nat :: i < |s| ==> (i in ps <==> p(s[i]))
  }

  lemma KeptSnoc<T>(s: seq<T>, last: T, p: T -> bool, ps: seq<nat>)
    requires KeptAt(s, p, ps)
    ensures KeptAt(s + [last], p, if p(last) then ps + [|s|] else ps)
  {
    var all, ps' := s + [last], if p(last) then ps + [|s|] else ps;
    forall i: nat | i < |all| ensures i in ps' <==> p(all[i]) {
      if i == |s| {
        assert forall k :: 0 <= k < |ps| ==> ps[k] != i;
      } else {
        assert all[i] == s[i];
      }
    }
  }

  /** The same, as one more element joins a prefix. */
  lemma KeptOneMore<T>(s: seq<T>, p: T -> bool, before: seq<nat>) returns (ps: seq<nat>)
    requires s != [] && KeptAt(s[..|s| - 1], p, before)
    ensures ps == (if p(s[|s| - 1]) then before + [|s| - 1] else before) && KeptAt(s, p, ps)
  {
    assert s == s[..|s| - 1] + [s[|s| - 1]];
    KeptSnoc(s[..|s| - 1], s[|s| - 1], p, before);
    ps := if p(s[|s| - 1]) then before + [|s| - 1] else before;
  }

  /** Filtering keeps exactly the elements that satisfy `p`, in their order. */
  lemma {:induction false} FilterIs<T>(s: seq<T>, p: T -> bool) returns (ps: seq<nat>)
    ensures KeptAt(s, p, ps) && TakenAt(s, ps, Filter(s, p))
  {
    if s == [] {
      ps := [];
    } else {
      ps := FilterIs(s[..|s| - 1], p);
      ps := FilterStep(s, p, ps);
    }
  }

  lemma FilterStep<T>(s: seq<T>, p: T -> bool, before: seq<nat>) returns (ps: seq<nat>)
    requires s != [] && KeptAt(s[..|s| - 1], p, before) && TakenAt(s[..|s| - 1], before, Filter(s[..|s| - 1], p))
    ensures KeptAt(s, p, ps) && TakenAt(s, ps, Filter(s, p))
  {
    var init, last := s[..|s| - 1], s[|s| - 1];
    assert s == init + [last];
    KeptSnoc(init, last, p, before);
    TakenSnoc(init, last, before, Filter(init, p));
    if p(last) {
      ps := before + [|init|];
      assert Filter(s, p) == Filter(init, p) + [last];
    } else {
      ps := before;
      assert Filter(s, p) == Filter(init, p);
    }
  }
}
