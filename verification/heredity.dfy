/** The Bayesian-network helpers of the heredity program: the fixed
    probability table, the probability of one joint assignment of gene
    counts and traits to a family, the accumulator that adds such a
    probability to every person's distributions, and the final
    normalisation.  Python floats are modelled as exact reals. */
module Heredity {
  import opened Outcomes

  type Person = string

  /** Number of copies of the gene a person carries. */
  type Genes = g: int | 0 <= g <= 2

  // ---------------------------------------------------------------------
  // The probability table
  // ---------------------------------------------------------------------

  /** Unconditional probability of carrying `g` copies. */
  function GeneProb(g: Genes): (r: real)
    ensures 0.0 < r < 1.0
  {
    if g == 2 then 0.01 else if g == 1 then 0.03 else 0.96
  }

  /** Probability of showing the trait (`t`) or not, given `g` copies. */
  function TraitProb(g: Genes, t: bool): (r: real)
    ensures 0.0 < r < 1.0
  {
    match (g, t)
    case (2, true) => 0.65
    case (2, false) => 0.35
    case (1, true) => 0.56
    case (1, false) => 0.44
    case (_, true) => 0.01
    case (_, false) => 0.99
  }

  /** Probability that a copy of the gene mutates on its way to a child. */
  const Mutation: real := 0.01

  // ---------------------------------------------------------------------
  // Per-person probabilities
  // ---------------------------------------------------------------------

  /** The gene count an assignment gives to `p`: membership in `one`
      takes precedence over membership in `two`. */
  function GeneCount(p: Person, one: set<Person>, two: set<Person>): (g: Genes)
    ensures g == 1 <==> p in one
    ensures g == 2 <==> p !in one && p in two
    ensures g == 0 <==> p !in one && p !in two
  {
    if p in one then 1 else if p in two then 2 else 0
  }

  /** Probability of a person without listed parents: the gene prior times
      the trait probability for that gene count. */
  function NoParent(g: Genes, t: bool): (r: real)
    ensures 0.0 <= r <= 1.0
  {
    UnitProduct(GeneProb(g), TraitProb(g, t));
    GeneProb(g) * TraitProb(g, t)
  }

  /** The six outcomes of a person without parents form a distribution. */
  lemma NoParentDistribution()
    ensures NoParent(0, true) + NoParent(0, false)
      + NoParent(1, true) + NoParent(1, false)
      + NoParent(2, true) + NoParent(2, false) == 1.0
  {
    TraitRows(0);
    TraitRows(1);
    TraitRows(2);
    assert NoParent(0, true) + NoParent(0, false) == GeneProb(0) * (TraitProb(0, true) + TraitProb(0, false));
    assert NoParent(1, true) + NoParent(1, false) == GeneProb(1) * (TraitProb(1, true) + TraitProb(1, false));
    assert NoParent(2, true) + NoParent(2, false) == GeneProb(2) * (TraitProb(2, true) + TraitProb(2, false));
  }

  /** Each row of the trait table sums to one. */
  lemma TraitRows(g: Genes)
    ensures TraitProb(g, true) + TraitProb(g, false) == 1.0
  {
  }

  /** Probability that a parent with `g` copies passes a copy on. */
  function PassOn(g: Genes): (r: real)
    ensures 0.0 < r < 1.0
  {
    if g == 0 then Mutation else if g == 1 then 0.5 else 1.0 - Mutation
  }

  /** Passing on from a carrier of two copies is the complement of passing
      on from a non-carrier, and a single copy passes on half the time. */
  lemma PassOnSymmetric()
    ensures PassOn(2) == 1.0 - PassOn(0)
    ensures PassOn(1) == 1.0 - PassOn(1)
  {
  }

  /** Probability that a child inherits `g` copies when the mother passes a
      copy with probability `m` and the father with probability `f`, as the
      program computes it.  The one-copy case multiplies "at least one" by
      "not both", which counts the both-parents case partly twice; see
      `ChildGeneExcess`. */
  function ChildGene(m: real, f: real, g: Genes): (r: real)
    requires 0.0 <= m <= 1.0 && 0.0 <= f <= 1.0
    ensures 0.0 <= r <= 1.0
  {
    UnitProduct(1.0 - m, 1.0 - f);
    UnitProduct(m, f);
    if g == 0 then (1.0 - m) * (1.0 - f)
    else if g == 1 then
      UnitProduct(m + f - m * f, 1.0 - m * f);
      (m + f - m * f) * (1.0 - m * f)
    else m * f
  }

  /** The one-copy probability intended: exactly one parent passes a copy. */
  function ChildGeneIntended(m: real, f: real, g: Genes): (r: real)
    requires 0.0 <= m <= 1.0 && 0.0 <= f <= 1.0
    ensures 0.0 <= r <= 1.0
  {
    UnitProduct(1.0 - m, 1.0 - f);
    UnitProduct(m, f);
    if g == 0 then (1.0 - m) * (1.0 - f)
    else if g == 1 then
      ExactlyOneBound(m, f);
      m * (1.0 - f) + f * (1.0 - m)
    else m * f
  }

  /** The intended probabilities of zero, one and two copies add up to one
      for any pass-on probabilities. */
  lemma ChildGeneIntendedDistribution(m: real, f: real)
    requires 0.0 <= m <= 1.0 && 0.0 <= f <= 1.0
    ensures ChildGeneIntended(m, f, 0) + ChildGeneIntended(m, f, 1) + ChildGeneIntended(m, f, 2) == 1.0
  {
    assert (1.0 - m) * (1.0 - f) == 1.0 - m - f + m * f;
    assert m * (1.0 - f) + f * (1.0 - m) == m + f - 2.0 * (m * f);
  }

  /** The program's one-copy probability exceeds the intended one by
      `m·f·(1-m)·(1-f)`: the two agree only when a parent passes a copy
      with probability 0 or 1. */
  lemma ChildGeneExcess(m: real, f: real)
    requires 0.0 <= m <= 1.0 && 0.0 <= f <= 1.0
    ensures ChildGene(m, f, 1) == ChildGeneIntended(m, f, 1) + m * f * ((1.0 - m) * (1.0 - f))
  {
    var p := m * f;
    assert (m + f - p) * (1.0 - p) == (m + f - p) - p * (m + f - p);
    assert (1.0 - m) * (1.0 - f) == 1.0 - m - f + p;
    assert p * (1.0 - m - f + p) == p - p * (m + f - p);
  }

  /** With two single-copy parents the program's child distribution adds up
      to 17/16. */
  lemma ChildGeneOverCounts()
    ensures ChildGene(PassOn(1), PassOn(1), 0) + ChildGene(PassOn(1), PassOn(1), 1)
      + ChildGene(PassOn(1), PassOn(1), 2) == 17.0 / 16.0
  {
  }

  /** Probability of a person with listed parents whose gene counts are
      `mg` and `fg`. */
  function WithParent(mg: Genes, fg: Genes, g: Genes, t: bool): (r: real)
    ensures 0.0 <= r <= 1.0
  {
    var c := ChildGene(PassOn(mg), PassOn(fg), g);
    UnitProduct(c, TraitProb(g, t));
    c * TraitProb(g, t)
  }

  lemma UnitProduct(a: real, b: real)
    requires 0.0 <= a <= 1.0 && 0.0 <= b <= 1.0
    ensures 0.0 <= a * b <= 1.0
  {
    NonNegative(a, b);
    NonNegative(1.0 - a, b);
    assert a * b == b - (1.0 - a) * b;
  }

  lemma NonNegative(x: real, y: real)
    requires x >= 0.0 && y >= 0.0
    ensures x * y >= 0.0
  {
  }

  /** Exactly one of two independent events happens with a probability in
      `[0, 1]`. */
  lemma ExactlyOneBound(m: real, f: real)
    requires 0.0 <= m <= 1.0 && 0.0 <= f <= 1.0
    ensures 0.0 <= m * (1.0 - f) + f * (1.0 - m) <= 1.0
  {
    UnitProduct(m, 1.0 - f);
    UnitProduct(f, 1.0 - m);
    UnitProduct(1.0 - m, 1.0 - f);
    UnitProduct(m, f);
    assert m * (1.0 - f) + f * (1.0 - m) == 1.0 - (1.0 - m) * (1.0 - f) - m * f;
  }

  // ---------------------------------------------------------------------
  // Joint probability of an assignment
  // ---------------------------------------------------------------------

  /** A person as read from the data file: the parents are either both
      named or both left blank in well-formed data. */
  datatype Record = Record(mother: Option<Person>, father: Option<Person>)

  /** A person with a listed mother names both parents, and both are part
      of the family. */
  predicate ParentsKnown(people: map<Person, Record>, p: Person)
    requires p in people
  {
    people[p].mother.Some? ==>
      people[p].mother.value in people && people[p].father.Some? && people[p].father.value in people
  }

  /** The factor one person contributes to the joint probability.  A person
      with a listed mother is scored from both parents' gene counts; looking
      up a parent outside the family fails. */
  function Factor(people: map<Person, Record>, one: set<Person>, two: set<Person>, traits: set<Person>, p: Person): (r: Option<real>)
    requires p in people
    ensures r.Some? <==> ParentsKnown(people, p)
    ensures r.Some? ==> 0.0 <= r.value <= 1.0
  {
    var rec := people[p];
    var g := GeneCount(p, one, two);
    match rec.mother
    case None => Some(NoParent(g, p in traits))
    case Some(mother) =>
      if mother in people && rec.father.Some? && rec.father.value in people then
        Some(WithParent(GeneCount(mother, one, two), GeneCount(rec.father.value, one, two), g, p in traits))
      else None
  }

  /** The joint probability: the product of every listed person's factor,
      or a failure when some person's parents cannot be looked up. */
  function Joint(people: map<Person, Record>, order: seq<Person>, one: set<Person>, two: set<Person>, traits: set<Person>): (r: Option<real>)
    requires forall i | 0 <= i < |order| :: order[i] in people
    ensures r.Some? <==> forall i | 0 <= i < |order| :: ParentsKnown(people, order[i])
    ensures r.Some? ==> 0.0 <= r.value <= 1.0
  {
    if |order| == 0 then Some(1.0)
    else
      var rest := Joint(people, order[1..], one, two, traits);
      assert forall i | 1 <= i < |order| :: order[i] == order[1..][i - 1];
      match Factor(people, one, two, traits, order[0])
      case None => None
      case Some(x) =>
        match rest
        case None => None
        case Some(y) =>
          UnitProduct(x, y);
          Some(x * y)
  }

  /** A family of one person without parents: the joint probability is the
      table's gene prior times its trait probability. */
  lemma JointOfFounder(p: Person, g: Genes, t: bool)
    ensures var one := if g == 1 then {p} else {};
      var two := if g == 2 then {p} else {};
      var traits := if t then {p} else {};
      Joint(map[p := Record(None, None)], [p], one, two, traits) == Some(GeneProb(g) * TraitProb(g, t))
  {
  }

  // ---------------------------------------------------------------------
  // Accumulating and normalising the distributions
  // ---------------------------------------------------------------------

  /** A person's running distributions: weight per gene count and weight
      for having the trait or not. */
  datatype Belief = Belief(zero: real, one: real, two: real, yes: real, no: real)

  function GeneMass(b: Belief, g: Genes): real {
    if g == 0 then b.zero else if g == 1 then b.one else b.two
  }

  function TraitMass(b: Belief, t: bool): real {
    if t then b.yes else b.no
  }

  function GeneTotal(b: Belief): real {
    b.zero + b.one + b.two
  }

  function TraitTotal(b: Belief): real {
    b.yes + b.no
  }

  /** Adds `p` to the bucket of gene count `g` and to the bucket of trait
      status `t`. */
  function Bump(b: Belief, g: Genes, t: bool, p: real): (r: Belief)
    ensures forall h: Genes :: GeneMass(r, h) == GeneMass(b, h) + (if h == g then p else 0.0)
    ensures TraitMass(r, t) == TraitMass(b, t) + p && TraitMass(r, !t) == TraitMass(b, !t)
  {
    var b' := if g == 0 then b.(zero := b.zero + p) else if g == 1 then b.(one := b.one + p) else b.(two := b.two + p);
    if t then b'.(yes := b'.yes + p) else b'.(no := b'.no + p)
  }

  /** Adds the probability `p` of one assignment to every person: the gene
      bucket of the person's assigned count and the trait bucket of the
      person's assigned status each grow by `p`; every other bucket keeps its
      value. */
  function Update(probs: map<Person, Belief>, one: set<Person>, two: set<Person>, traits: set<Person>, p: real): (r: map<Person, Belief>)
    ensures r.Keys == probs.Keys
    ensures forall q, h: Genes | q in r ::
      GeneMass(r[q], h) == GeneMass(probs[q], h) + (if h == GeneCount(q, one, two) then p else 0.0)
    ensures forall q, t: bool | q in r ::
      TraitMass(r[q], t) == TraitMass(probs[q], t) + (if t == (q in traits) then p else 0.0)
  {
    map q | q in probs :: Bump(probs[q], GeneCount(q, one, two), q in traits, p)
  }

  /** Each update adds exactly `p` to every person's gene weights and to
      every person's trait weights. */
  lemma UpdateConserves(probs: map<Person, Belief>, one: set<Person>, two: set<Person>, traits: set<Person>, p: real, q: Person)
    requires q in probs
    ensures GeneTotal(Update(probs, one, two, traits, p)[q]) == GeneTotal(probs[q]) + p
    ensures TraitTotal(Update(probs, one, two, traits, p)[q]) == TraitTotal(probs[q]) + p
  {
    var b := probs[q];
    var r := Update(probs, one, two, traits, p)[q];
    var g := GeneCount(q, one, two);
    assert GeneMass(r, 0) == GeneMass(b, 0) + (if g == 0 then p else 0.0);
    assert GeneMass(r, 1) == GeneMass(b, 1) + (if g == 1 then p else 0.0);
    assert GeneMass(r, 2) == GeneMass(b, 2) + (if g == 2 then p else 0.0);
    assert TraitMass(r, q in traits) == TraitMass(b, q in traits) + p;
    assert TraitMass(r, !(q in traits)) == TraitMass(b, !(q in traits));
  }

  /** One person's distributions divided by their sums; a zero sum is a
      division by zero in the program. */
  function NormalizeBelief(b: Belief): (r: Option<Belief>)
    ensures r.Some? <==> GeneTotal(b) != 0.0 && TraitTotal(b) != 0.0
    ensures r.Some? ==> GeneTotal(r.value) == 1.0 && TraitTotal(r.value) == 1.0
    ensures r.Some? ==> forall g: Genes :: GeneMass(r.value, g) == GeneMass(b, g) / GeneTotal(b)
    ensures r.Some? ==> forall t: bool :: TraitMass(r.value, t) == TraitMass(b, t) / TraitTotal(b)
  {
    var gs := GeneTotal(b);
    var ts := TraitTotal(b);
    if gs == 0.0 || ts == 0.0 then None
    else
      ThreeParts(b.zero, b.one, b.two, gs);
      TwoParts(b.yes, b.no, ts);
      Some(Belief(b.zero / gs, b.one / gs, b.two / gs, b.yes / ts, b.no / ts))
  }

  lemma ThreeParts(a: real, b: real, c: real, s: real)
    requires s == a + b + c && s != 0.0
    ensures a / s + b / s + c / s == 1.0
  {
    assert a / s + b / s + c / s == (a + b + c) / s;
  }

  lemma TwoParts(a: real, b: real, s: real)
    requires s == a + b && s != 0.0
    ensures a / s + b / s == 1.0
  {
    assert a / s + b / s == (a + b) / s;
  }

  /** Normalises every person's distributions, or fails when some person
      has a zero sum. */
  function NormalizeAll(probs: map<Person, Belief>): (r: Option<map<Person, Belief>>)
    ensures r.Some? <==> forall q | q in probs :: NormalizeBelief(probs[q]).Some?
    ensures r.Some? ==> r.value.Keys == probs.Keys
    ensures r.Some? ==> forall q | q in probs :: Some(r.value[q]) == NormalizeBelief(probs[q])
  {
    if exists q | q in probs :: NormalizeBelief(probs[q]).None? then None
    else Some(map q | q in probs :: NormalizeBelief(probs[q]).value)
  }

  /** After normalising, every person's gene weights and trait weights each
      sum to one, and the ratios between a person's weights are kept. */
  lemma NormalizedDistributions(probs: map<Person, Belief>, q: Person)
    requires q in probs && NormalizeAll(probs).Some?
    ensures GeneTotal(NormalizeAll(probs).value[q]) == 1.0
    ensures TraitTotal(NormalizeAll(probs).value[q]) == 1.0
    ensures forall g: Genes :: GeneMass(NormalizeAll(probs).value[q], g) * GeneTotal(probs[q]) == GeneMass(probs[q], g)
    ensures forall t: bool :: TraitMass(NormalizeAll(probs).value[q], t) * TraitTotal(probs[q]) == TraitMass(probs[q], t)
  {
    var b := probs[q];
    var r := NormalizeAll(probs).value[q];
    forall g: Genes
      ensures GeneMass(r, g) * GeneTotal(b) == GeneMass(b, g)
    {
      MulBack(GeneMass(b, g), GeneTotal(b));
    }
    forall t: bool
      ensures TraitMass(r, t) * TraitTotal(b) == TraitMass(b, t)
    {
      MulBack(TraitMass(b, t), TraitTotal(b));
    }
  }

  lemma MulBack(x: real, s: real)
    requires s != 0.0
    ensures x / s * s == x
  {
  }

  // ---------------------------------------------------------------------
  // Enumerating assignments
  // ---------------------------------------------------------------------

  /** All subsets of the listed elements, built by deciding the first
      element and recursing on the rest. */
  function PowerList<T>(xs: seq<T>): (ps: seq<set<T>>)
    ensures |ps| > 0 && ps[0] == {}
    ensures forall i | 0 <= i < |ps| :: ps[i] <= set x | x in xs
  {
    if |xs| == 0 then [{}]
    else
      var rest := PowerList(xs[1..]);
      rest + seq(|rest|, i requires 0 <= i < |rest| => {xs[0]} + rest[i])
  }

  function Pow2(n: nat): nat {
    if n == 0 then 1 else 2 * Pow2(n - 1)
  }

  /** A set is in the power list exactly when it is a subset of the listed
      elements. */
  lemma {:induction false} PowerListMembers<T>(xs: seq<T>, t: set<T>)
    ensures t in PowerList(xs) <==> t <= set x | x in xs
  {
    var all := set x | x in xs;
    if |xs| == 0 {
      assert t <= all <==> t == {};
    } else {
      var x := xs[0];
      var tail := xs[1..];
      var rest := PowerList(tail);
      var added := seq(|rest|, i requires 0 <= i < |rest| => {x} + rest[i]);
      assert PowerList(xs) == rest + added;
      assert all == {x} + set y | y in tail;
      PowerListMembers(tail, t);
      PowerListMembers(tail, t - {x});
      if t <= all {
        if t <= set y | y in tail {
          assert t in rest;
        } else {
          assert x in t;
          var k :| 0 <= k < |rest| && rest[k] == t - {x};
          assert added[k] == t;
        }
      }
      if t in added {
        var k :| 0 <= k < |added| && added[k] == t;
        PowerListMembers(tail, rest[k]);
      }
    }
  }

  /** `n` listed elements give `2^n` entries. */
  lemma {:induction false} PowerListSize<T>(xs: seq<T>)
    ensures |PowerList(xs)| == Pow2(|xs|)
  {
    if |xs| > 0 {
      PowerListSize(xs[1..]);
    }
  }
}
