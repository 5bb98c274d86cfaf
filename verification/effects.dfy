/** The effect-equivalence check that decides whether two suspicious stews
    may share a stack (`haveSameEffects` in Main.java). */
module Effects {
  import opened Items

  /** Two effects match when type, duration and amplifier are all equal. */
  predicate Matches(a: PotionEffect, b: PotionEffect) {
    a.effectType == b.effectType && a.duration == b.duration && a.amplifier == b.amplifier
  }

  /** Some effect of `e` matches `x` (what the inner search looks for). */
  predicate HasMatch(x: PotionEffect, e: seq<PotionEffect>) {
    exists j :: 0 <= j < |e| && Matches(x, e[j])
  }

  /** Every effect of `e1` has SOME matching effect in `e2`. A match is not
      consumed: one effect of `e2` may serve several effects of `e1`. */
  predicate Covers(e1: seq<PotionEffect>, e2: seq<PotionEffect>) {
    forall i :: 0 <= i < |e1| ==> HasMatch(e1[i], e2)
  }

  /** When two item metas count as "the same effects": both are stew metas,
      their effect lists have the same length, and the first is covered by the
      second. */
  predicate SameEffects(m1: Option<seq<PotionEffect>>, m2: Option<seq<PotionEffect>>) {
    m1.Some? && m2.Some? && |m1.value| == |m2.value| && Covers(m1.value, m2.value)
  }

  /** No effect occurs twice in the list. */
  ghost predicate Distinct(e: seq<PotionEffect>) {
    forall i, j :: 0 <= i < j < |e| ==> e[i] != e[j]
  }

  /** The check itself: reject a non-stew meta, reject lists of different
      length, then search `effects2` for each effect of `effects1` in turn,
      stopping the inner search at the first match and the outer one at the
      first effect without a match. */
  method HaveSameEffects(item1: ItemStack, item2: ItemStack) returns (same: bool)
    ensures same <==> SameEffects(item1.meta, item2.meta)
  {
    if item1.meta.None? || item2.meta.None? {
      return false;
    }
    var effects1 := item1.meta.value;
    var effects2 := item2.meta.value;
    if |effects1| != |effects2| {
      return false;
    }
    var i := 0;
    while i < |effects1|
      invariant 0 <= i <= |effects1|
      invariant forall k :: 0 <= k < i ==> HasMatch(effects1[k], effects2)
    {
      var found := false;
      var j := 0;
      while j < |effects2|
        invariant 0 <= j <= |effects2|
        invariant !found
        invariant forall m :: 0 <= m < j ==> !Matches(effects1[i], effects2[m])
      {
        if Matches(effects1[i], effects2[j]) {
          found := true;
          break;
        }
        j := j + 1;
      }
      if !found {
        assert !HasMatch(effects1[i], effects2);
        return false;
      }
      i := i + 1;
    }
    return true;
  }

  /** Every stew meta has the same effects as itself. */
  lemma SameEffectsReflexive(e: seq<PotionEffect>)
    ensures SameEffects(Some(e), Some(e))
  {
  }

  /** The check is transitive: a chain of accepted comparisons is accepted. */
  lemma SameEffectsTransitive(m1: Option<seq<PotionEffect>>, m2: Option<seq<PotionEffect>>, m3: Option<seq<PotionEffect>>)
    requires SameEffects(m1, m2) && SameEffects(m2, m3)
    ensures SameEffects(m1, m3)
  {
  }

  /** The check is not symmetric and does not count multiplicities: a stack
      whose effects are [A, A] accepts a stew with [A, B], while a stack with
      [A, B] rejects a stew with [A, A]. */
  lemma NotSymmetric()
    ensures var a, b := PotionEffect("poison", 160, 0), PotionEffect("blindness", 100, 1);
            SameEffects(Some([a, a]), Some([a, b])) && !SameEffects(Some([a, b]), Some([a, a]))
            && multiset([a, a]) != multiset([a, b])
  {
    var a, b := PotionEffect("poison", 160, 0), PotionEffect("blindness", 100, 1);
    assert Matches([a, a][0], [a, b][0]);
    assert Matches([a, a][1], [a, b][0]);
    assert !Matches([a, b][1], [a, a][0]) && !Matches([a, b][1], [a, a][1]);
    assert multiset([a, a])[a] == 2;
  }

  /** Lists that are permutations of each other are always accepted: the
      check never rejects a pair that a multiset comparison would accept. */
  lemma PermutationIsSame(e1: seq<PotionEffect>, e2: seq<PotionEffect>)
    requires multiset(e1) == multiset(e2)
    ensures SameEffects(Some(e1), Some(e2))
  {
    assert |e1| == |multiset(e1)| == |multiset(e2)| == |e2|;
    forall i | 0 <= i < |e1|
      ensures HasMatch(e1[i], e2)
    {
      assert e1[i] in multiset(e1);
      assert e1[i] in e2;
      var j :| 0 <= j < |e2| && e2[j] == e1[i];
      assert Matches(e1[i], e2[j]);
    }
  }

  /** The set of effects a list holds. */
  ghost function Elems(e: seq<PotionEffect>): set<PotionEffect> {
    set x | x in e
  }

  /** The effects of a non-empty list: its head and those of its tail. */
  lemma ElemsCons(e: seq<PotionEffect>)
    requires e != []
    ensures Elems(e) == {e[0]} + Elems(e[1..])
  {
    assert e == [e[0]] + e[1..];
  }

  /** A non-empty list is duplicate-free exactly when its head does not occur
      in its tail and its tail is duplicate-free. */
  lemma DistinctCons(e: seq<PotionEffect>)
    requires e != []
    ensures Distinct(e) <==> e[0] !in e[1..] && Distinct(e[1..])
  {
    var rest := e[1..];
    if e[0] in rest {
      var k :| 0 <= k < |rest| && rest[k] == e[0];
      assert e[0] == e[k + 1];
    }
    if e[0] !in rest && Distinct(rest) {
      forall i, j | 0 <= i < j < |e| ensures e[i] != e[j] {
        assert e[j] == rest[j - 1];
        if i > 0 {
          assert e[i] == rest[i - 1];
        }
      }
    }
    if Distinct(e) {
      forall i, j | 0 <= i < j < |rest| ensures rest[i] != rest[j] {
        assert rest[i] == e[i + 1] && rest[j] == e[j + 1];
      }
    }
  }

  /** A list has at most as many distinct effects as entries, and exactly as
      many when no effect repeats. */
  lemma {:induction false} ElemsCardinality(e: seq<PotionEffect>)
    ensures |Elems(e)| <= |e|
    ensures |Elems(e)| == |e| <==> Distinct(e)
  {
    if e == [] {
      assert Elems(e) == {};
    } else {
      var rest := e[1..];
      ElemsCardinality(rest);
      ElemsCons(e);
      DistinctCons(e);
      if e[0] in rest {
        assert e[0] in Elems(rest);
        assert Elems(e) == Elems(rest);
      } else {
        assert e[0] !in Elems(rest);
        assert |Elems(e)| == 1 + |Elems(rest)|;
      }
    }
  }

  /** In a list without repeats every member occurs exactly once. */
  lemma {:induction false} DistinctCount(e: seq<PotionEffect>, x: PotionEffect)
    requires Distinct(e)
    ensures multiset(e)[x] == if x in e then 1 else 0
  {
    if e != [] {
      var rest := e[1..];
      assert e == [e[0]] + rest;
      DistinctCons(e);
      DistinctCount(rest, x);
      assert multiset(e) == multiset{e[0]} + multiset(rest);
    }
  }

  /** When the stack's effect list has no repeated effect, the check is
      exactly a permutation test: it accepts precisely the lists that hold
      the same effects, and the other list is duplicate-free too. */
  lemma ExactWhenDistinct(e1: seq<PotionEffect>, e2: seq<PotionEffect>)
    requires Distinct(e1)
    requires SameEffects(Some(e1), Some(e2))
    ensures multiset(e1) == multiset(e2)
    ensures Distinct(e2)
  {
    assert Elems(e1) <= Elems(e2) by {
      forall x | x in Elems(e1) ensures x in Elems(e2) {
        var i :| 0 <= i < |e1| && e1[i] == x;
        var j :| 0 <= j < |e2| && Matches(e1[i], e2[j]);
        assert e2[j] == x;
      }
    }
    ElemsCardinality(e1);
    ElemsCardinality(e2);
    assert Elems(e1) == Elems(e2) by {
      assert |Elems(e2) - Elems(e1)| == |Elems(e2)| - |Elems(e1)| == 0;
    }
    assert Distinct(e2);
    forall x ensures multiset(e1)[x] == multiset(e2)[x] {
      DistinctCount(e1, x);
      DistinctCount(e2, x);
      assert x in e1 <==> x in Elems(e1);
      assert x in e2 <==> x in Elems(e2);
    }
  }

  /** For duplicate-free lists the check is symmetric. */
  lemma SymmetricWhenDistinct(e1: seq<PotionEffect>, e2: seq<PotionEffect>)
    requires Distinct(e1)
    requires SameEffects(Some(e1), Some(e2))
    ensures SameEffects(Some(e2), Some(e1))
  {
    ExactWhenDistinct(e1, e2);
    PermutationIsSame(e2, e1);
  }
}
