/** Heredity: the combinatorics and bookkeeping around a Bayesian network of
    a gene and the trait it influences. Probabilities are exact reals. */
module Heredity {
  import opened Wrappers


  // ---------------------------------------------------------------------
  // Powerset

  /** The elements of a sequence, as a set. */
  function Elements<T>(xs: seq<T>): set<T> {
    set x | x in xs
  }

  /** No element occurs twice. */
  ghost predicate Distinct<T>(xs: seq<T>) {
    forall i, j :: 0 <= i < j < |xs| ==> xs[i] != xs[j]
  }

  /** Each set of `ss` with `x` added. */
  function WithElement<T>(x: T, ss: seq<set<T>>): (r: seq<set<T>>)
    ensures |r| == |ss| && forall i :: 0 <= i < |ss| ==> r[i] == {x} + ss[i]
  {
    seq(|ss|, i requires 0 <= i < |ss| => {x} + ss[i])
  }

  /** itertools.combinations(xs, r), each combination collected into a set:
      the r-element selections from `xs` in lexicographic order of position,
      those holding the first element before those that do not. */
  function Choose<T>(xs: seq<T>, r: nat): seq<set<T>>
    decreases |xs|
  {
    if r == 0 then [{}]
    else if |xs| < r then []
    else WithElement(xs[0], Choose(xs[1..], r - 1)) + Choose(xs[1..], r)
  }

  /** The selections of 0, 1, ..., k - 1 elements, one size after another. */
  function Layers<T>(xs: seq<T>, k: nat): seq<set<T>> {
    if k == 0 then [] else Layers(xs, k - 1) + Choose(xs, k - 1)
  }

  /** All subsets of the elements of `xs` (a set listed in some order), as the
      chain of the selections of each size r = 0 .. |xs|. */
  function Powerset<T>(xs: seq<T>): seq<set<T>> {
    Layers(xs, |xs| + 1)
  }

  function Binomial(n: nat, r: nat): nat {
    if r == 0 then 1
    else if n < r then 0
    else Binomial(n - 1, r - 1) + Binomial(n - 1, r)
  }

  /** Binomial(n, 0) + ... + Binomial(n, k - 1). */
  function SumBinomials(n: nat, k: nat): nat {
    if k == 0 then 0 else SumBinomials(n, k - 1) + Binomial(n, k - 1)
  }

  function Power2(n: nat): nat {
    if n == 0 then 1 else 2 * Power2(n - 1)
  }

  lemma {:induction false} ChooseLength<T>(xs: seq<T>, r: nat)
    ensures |Choose(xs, r)| == Binomial(|xs|, r)
    decreases |xs|
  {
    if r != 0 && |xs| >= r {
      ChooseLength(xs[1..], r - 1);
      ChooseLength(xs[1..], r);
    }
  }

  lemma {:induction false} LayersLength<T>(xs: seq<T>, k: nat)
    ensures |Layers(xs, k)| == SumBinomials(|xs|, k)
  {
    if k > 0 {
      LayersLength(xs, k - 1);
      ChooseLength(xs, k - 1);
    }
  }

  /** Pascal's rule, summed. */
  lemma {:induction false} PascalSum(n: nat, k: nat)
    ensures SumBinomials(n + 1, k + 1) == SumBinomials(n, k + 1) + SumBinomials(n, k)
  {
    if k > 0 {
      PascalSum(n, k - 1);
      assert Binomial(n + 1, k) == Binomial(n, k - 1) + Binomial(n, k);
    }
  }

  /** The binomial coefficients of n add up to 2^n. */
  lemma {:induction false} BinomialSum(n: nat)
    ensures SumBinomials(n, n + 1) == Power2(n)
  {
    if n > 0 {
      BinomialSum(n - 1);
      PascalSum(n - 1, n);
      assert Binomial(n - 1, n) == 0;
    }
  }

  /** The powerset of an n-element list has 2^n entries. */
  lemma PowersetLength<T>(xs: seq<T>)
    ensures |Powerset(xs)| == Power2(|xs|)
  {
    LayersLength(xs, |xs| + 1);
    BinomialSum(|xs|);
  }

  lemma SubsetCard<T>(a: set<T>, b: set<T>)
    requires a <= b
    ensures |a| <= |b|
  {
    assert |b - a| + |a - b| + |b * a| == |b + a|;
    assert b + a == b && b * a == a;
  }

  lemma {:induction false} ElementsCard<T>(xs: seq<T>)
    ensures |Elements(xs)| <= |xs|
  {
    if xs != [] {
      ElementsCard(xs[1..]);
      assert Elements(xs) == {xs[0]} + Elements(xs[1..]);
    }
  }

  lemma ElementsOfTail<T>(xs: seq<T>)
    requires xs != [] && Distinct(xs)
    ensures Distinct(xs[1..])
    ensures Elements(xs) == {xs[0]} + Elements(xs[1..])
    ensures xs[0] !in Elements(xs[1..])
  {
    forall k | 0 <= k < |xs[1..]| ensures xs[1..][k] != xs[0] {
      assert xs[1..][k] == xs[k + 1];
    }
  }

  /** The selections holding the first element come first, then the others. */
  lemma ChooseSplit<T>(xs: seq<T>, r: nat)
    requires r != 0 && |xs| >= r
    ensures |Choose(xs, r)| == |Choose(xs[1..], r - 1)| + |Choose(xs[1..], r)|
    ensures forall i :: 0 <= i < |Choose(xs[1..], r - 1)| ==> Choose(xs, r)[i] == {xs[0]} + Choose(xs[1..], r - 1)[i]
    ensures forall i :: 0 <= i < |Choose(xs[1..], r)| ==> Choose(xs, r)[|Choose(xs[1..], r - 1)| + i] == Choose(xs[1..], r)[i]
  {
  }

  /** Each selection of r elements from a list without repeats is a subset of size r. */
  lemma {:induction false} ChooseSubsets<T>(xs: seq<T>, r: nat)
    requires Distinct(xs)
    ensures forall i :: 0 <= i < |Choose(xs, r)| ==> Choose(xs, r)[i] <= Elements(xs) && |Choose(xs, r)[i]| == r
    decreases |xs|
  {
    if r != 0 && |xs| >= r {
      ElementsOfTail(xs);
      ChooseSubsets(xs[1..], r - 1);
      ChooseSubsets(xs[1..], r);
      ChooseSplit(xs, r);
      var n := |Choose(xs[1..], r - 1)|;
      forall i | 0 <= i < |Choose(xs, r)|
        ensures Choose(xs, r)[i] <= Elements(xs) && |Choose(xs, r)[i]| == r
      {
        if i >= n {
          assert Choose(xs, r)[n + (i - n)] == Choose(xs[1..], r)[i - n];
        }
      }
    }
  }

  /** Every subset of size r appears among the selections of r elements. */
  lemma {:induction false} ChooseComplete<T>(xs: seq<T>, r: nat, s: set<T>)
    requires Distinct(xs) && s <= Elements(xs) && |s| == r
    ensures s in Choose(xs, r)
    decreases |xs|, 1
  {
    if r == 0 {
      assert s == {};
    } else {
      assert |xs| >= r by {
        SubsetCard(s, Elements(xs));
        ElementsCard(xs);
      }
      if xs[0] in s {
        ChooseCompleteWithFirst(xs, r, s);
      } else {
        ChooseCompleteWithoutFirst(xs, r, s);
      }
    }
  }

  lemma {:induction false} ChooseCompleteWithFirst<T>(xs: seq<T>, r: nat, s: set<T>)
    requires Distinct(xs) && s <= Elements(xs) && |s| == r && 0 < r <= |xs| && xs[0] in s
    ensures s in Choose(xs, r)
    decreases |xs|, 0
  {
    var rest := s - {xs[0]};
    WithoutFirst(xs, s);
    ChooseComplete(xs[1..], r - 1, rest);
    InWithElement(xs[0], Choose(xs[1..], r - 1), rest);
    assert {xs[0]} + rest == s;
    ChooseUnfold(xs, r);
  }

  /** Taking the first element out of a subset that holds it leaves a subset of the tail. */
  lemma WithoutFirst<T>(xs: seq<T>, s: set<T>)
    requires Distinct(xs) && |xs| > 0 && s <= Elements(xs) && xs[0] in s
    ensures s - {xs[0]} <= Elements(xs[1..]) && |s - {xs[0]}| == |s| - 1
  {
    ElementsOfTail(xs);
    assert s == (s - {xs[0]}) + {xs[0]};
  }

  lemma InWithElement<T>(x: T, ss: seq<set<T>>, rest: set<T>)
    requires rest in ss
    ensures {x} + rest in WithElement(x, ss)
  {
    var k :| 0 <= k < |ss| && ss[k] == rest;
    assert WithElement(x, ss)[k] == {x} + rest;
  }

  lemma ChooseUnfold<T>(xs: seq<T>, r: nat)
    requires r != 0 && |xs| >= r
    ensures Choose(xs, r) == WithElement(xs[0], Choose(xs[1..], r - 1)) + Choose(xs[1..], r)
  {
  }

  lemma {:induction false} ChooseCompleteWithoutFirst<T>(xs: seq<T>, r: nat, s: set<T>)
    requires Distinct(xs) && s <= Elements(xs) && |s| == r && 0 < r <= |xs| && xs[0] !in s
    ensures s in Choose(xs, r)
    decreases |xs|, 0
  {
    ElementsOfTail(xs);
    ChooseSplit(xs, r);
    ChooseComplete(xs[1..], r, s);
    var k :| 0 <= k < |Choose(xs[1..], r)| && Choose(xs[1..], r)[k] == s;
    assert Choose(xs, r)[|Choose(xs[1..], r - 1)| + k] == s;
  }

  /** Adding an element none of the sets holds keeps different sets different. */
  lemma WithElementNoRepeats<T>(x: T, ss: seq<set<T>>)
    requires Distinct(ss) && forall i :: 0 <= i < |ss| ==> x !in ss[i]
    ensures Distinct(WithElement(x, ss))
  {
    var w := WithElement(x, ss);
    forall i, j | 0 <= i < j < |w| ensures w[i] != w[j] {
      assert w[i] - {x} == ss[i];
      assert w[j] - {x} == ss[j];
    }
  }

  lemma ConcatNoRepeats<T>(a: seq<T>, b: seq<T>)
    requires Distinct(a) && Distinct(b)
    requires forall i, j :: 0 <= i < |a| && 0 <= j < |b| ==> a[i] != b[j]
    ensures Distinct(a + b)
  {
    var c := a + b;
    forall i, j | 0 <= i < j < |c| ensures c[i] != c[j] {
      if j < |a| {
        assert c[i] == a[i] && c[j] == a[j];
      } else if i < |a| {
        assert c[i] == a[i] && c[j] == b[j - |a|];
      } else {
        assert c[i] == b[i - |a|] && c[j] == b[j - |a|];
      }
    }
  }

  /** No subset is selected twice. */
  lemma {:induction false} ChooseNoRepeats<T>(xs: seq<T>, r: nat)
    requires Distinct(xs)
    ensures Distinct(Choose(xs, r))
    decreases |xs|
  {
    if r != 0 && |xs| >= r {
      ElementsOfTail(xs);
      var smaller := Choose(xs[1..], r - 1);
      var without := Choose(xs[1..], r);
      ChooseNoRepeats(xs[1..], r - 1);
      ChooseNoRepeats(xs[1..], r);
      ChooseSubsets(xs[1..], r - 1);
      ChooseSubsets(xs[1..], r);
      WithElementNoRepeats(xs[0], smaller);
      var with := WithElement(xs[0], smaller);
      assert forall i :: 0 <= i < |with| ==> xs[0] in with[i];
      assert forall j :: 0 <= j < |without| ==> xs[0] !in without[j];
      ConcatNoRepeats(with, without);
    }
  }

  /** The layers below k hold subsets of the elements, each of fewer than k elements. */
  lemma {:induction false} LayersSubsets<T>(xs: seq<T>, k: nat)
    requires Distinct(xs)
    ensures forall i :: 0 <= i < |Layers(xs, k)| ==> Layers(xs, k)[i] <= Elements(xs) && |Layers(xs, k)[i]| < k
  {
    if k > 0 {
      LayersSubsets(xs, k - 1);
      ChooseSubsets(xs, k - 1);
      var below := Layers(xs, k - 1);
      var top := Choose(xs, k - 1);
      forall i | 0 <= i < |below + top|
        ensures (below + top)[i] <= Elements(xs) && |(below + top)[i]| < k
      {
        if i < |below| {
          assert (below + top)[i] == below[i];
        } else {
          assert (below + top)[i] == top[i - |below|];
        }
      }
    }
  }

  /** The layers list subsets by non-decreasing size. */
  lemma {:induction false} LayersSorted<T>(xs: seq<T>, k: nat)
    requires Distinct(xs)
    ensures forall i, j :: 0 <= i <= j < |Layers(xs, k)| ==> |Layers(xs, k)[i]| <= |Layers(xs, k)[j]|
  {
    if k > 0 {
      LayersSorted(xs, k - 1);
      LayersSubsets(xs, k - 1);
      ChooseSubsets(xs, k - 1);
      var below := Layers(xs, k - 1);
      var top := Choose(xs, k - 1);
      forall i, j | 0 <= i <= j < |below + top|
        ensures |(below + top)[i]| <= |(below + top)[j]|
      {
        if j < |below| {
          assert (below + top)[i] == below[i] && (below + top)[j] == below[j];
        } else if i < |below| {
          assert (below + top)[i] == below[i] && (below + top)[j] == top[j - |below|];
        } else {
          assert (below + top)[i] == top[i - |below|] && (below + top)[j] == top[j - |below|];
        }
      }
    }
  }

  /** No subset appears twice in the layers. */
  lemma {:induction false} LayersNoRepeats<T>(xs: seq<T>, k: nat)
    requires Distinct(xs)
    ensures Distinct(Layers(xs, k))
  {
    if k > 0 {
      LayersNoRepeats(xs, k - 1);
      LayersSubsets(xs, k - 1);
      ChooseSubsets(xs, k - 1);
      ChooseNoRepeats(xs, k - 1);
      var below := Layers(xs, k - 1);
      var top := Choose(xs, k - 1);
      forall i, j | 0 <= i < |below| && 0 <= j < |top|
        ensures below[i] != top[j]
      {
        assert |below[i]| < k - 1 == |top[j]|;
      }
      ConcatNoRepeats(below, top);
    }
  }

  /** Every subset of size below k is in the layers below k. */
  lemma {:induction false} LayersComplete<T>(xs: seq<T>, k: nat, s: set<T>)
    requires Distinct(xs) && s <= Elements(xs) && |s| < k
    ensures s in Layers(xs, k)
  {
    if |s| < k - 1 {
      LayersComplete(xs, k - 1, s);
    } else {
      ChooseComplete(xs, k - 1, s);
    }
  }

  /** Every subset of the listed set appears in the powerset exactly once,
      nothing else does, and the subsets come in order of non-decreasing size. */
  lemma PowersetExactlyOnce<T>(xs: seq<T>)
    requires Distinct(xs)
    ensures forall s :: s <= Elements(xs) ==> s in Powerset(xs)
    ensures forall i :: 0 <= i < |Powerset(xs)| ==> Powerset(xs)[i] <= Elements(xs)
    ensures Distinct(Powerset(xs))
    ensures forall i, j :: 0 <= i <= j < |Powerset(xs)| ==> |Powerset(xs)[i]| <= |Powerset(xs)[j]|
  {
    LayersSubsets(xs, |xs| + 1);
    LayersSorted(xs, |xs| + 1);
    LayersNoRepeats(xs, |xs| + 1);
    forall s | s <= Elements(xs) ensures s in Powerset(xs) {
      SubsetCard(s, Elements(xs));
      ElementsCard(xs);
      LayersComplete(xs, |xs| + 1, s);
    }
  }

  /** The powerset of {1, 2}: the empty set, the singletons, then both. */
  lemma PowersetOfTwo()
    ensures Powerset([1, 2]) == [{}, {1}, {2}, {1, 2}]
  {
    var xs := [1, 2];
    var none: seq<int> := [];
    assert xs[1..] == [2] && [2][1..] == none;
    assert Choose(none, 0) == [{}] && Choose([2], 0) == [{}];
    assert Choose([2], 1) == [{2}] by {
      assert {2} + {} == {2};
      assert WithElement(2, Choose(none, 0)) == [{2}];
    }
    assert Choose(xs, 1) == [{1}, {2}] by {
      assert {1} + {} == {1};
      assert WithElement(1, Choose([2], 0)) == [{1}];
    }
    assert Choose(xs, 2) == [{1, 2}] by {
      assert {1} + {2} == {1, 2};
      assert WithElement(1, Choose([2], 1)) == [{1, 2}];
    }
    assert Layers(xs, 1) == [{}];
    assert Layers(xs, 2) == [{}, {1}, {2}];
  }

  // ---------------------------------------------------------------------
  // Gene and trait assignments

  /** A person's row of the data file: known parents and, when known, whether they show the trait. */
  datatype Person<Name> = Person(mother: Option<Name>, father: Option<Name>, observed: Option<bool>)

  /** A person's gene copies and trait under one hypothesis. */
  datatype Assignment = Assignment(gene: nat, showsTrait: bool)

  /** The gene count a hypothesis gives a person: two copies when in
      `twoGenes` (whatever `oneGene` says), one when only in `oneGene`, else none. */
  function GeneCount<Name(==)>(person: Name, oneGene: set<Name>, twoGenes: set<Name>): (r: nat)
    ensures r <= 2
    ensures r == 2 <==> person in twoGenes
    ensures r == 1 <==> person in oneGene && person !in twoGenes
    ensures r == 0 <==> person !in oneGene && person !in twoGenes
  {
    if person in twoGenes then 2 else if person in oneGene then 1 else 0
  }

  /** The per-person table a joint probability is computed from. */
  method Classify<Name(==)>(people: set<Name>, oneGene: set<Name>, twoGenes: set<Name>, haveTrait: set<Name>)
    returns (data: map<Name, Assignment>)
    ensures data.Keys == people
    ensures forall person :: person in people ==>
      data[person] == Assignment(GeneCount(person, oneGene, twoGenes), person in haveTrait)
  {
    data := map[];
    var rest := people;
    while rest != {}
      invariant rest <= people && data.Keys == people - rest
      invariant forall person :: person in data ==>
        data[person] == Assignment(GeneCount(person, oneGene, twoGenes), person in haveTrait)
      decreases rest
    {
      var person :| person in rest;
      var gene := 0;
      if person in oneGene {
        gene := 1;
      }
      if person in twoGenes {
        gene := 2;
      }
      var showsTrait := false;
      if person in haveTrait {
        showsTrait := true;
      }
      data := data[person := Assignment(gene, showsTrait)];
      rest := rest - {person};
    }
  }

  const MUTATION: real := 0.01

  /** The chance that a parent with `parentGene` copies passes the gene on;
      None for a count other than 0, 1 or 2, where the program raises ValueError. */
  function GetParentProbability(parentGene: int): (r: Option<real>)
    ensures r.Some? <==> 0 <= parentGene <= 2
    ensures parentGene == 0 ==> r == Some(MUTATION)
    ensures parentGene == 1 ==> r == Some(0.5)
    ensures parentGene == 2 ==> r == Some(1.0 - MUTATION)
  {
    if parentGene == 0 then Some(MUTATION)
    else if parentGene == 1 then Some(0.5)
    else if parentGene == 2 then Some(1.0 - MUTATION)
    else None
  }

  /** Passing probabilities are probabilities, grow with the number of copies,
      and mutation acts the same way in both directions. */
  lemma ParentProbabilityOrdered()
    ensures forall g :: 0 <= g <= 2 ==> 0.0 <= GetParentProbability(g).value <= 1.0
    ensures GetParentProbability(0).value < GetParentProbability(1).value < GetParentProbability(2).value
    ensures GetParentProbability(0).value + GetParentProbability(2).value == 1.0
  {
  }

  /** A hypothesis about who has the trait contradicts the data: someone whose
      trait is known would have it exactly when they are not in `haveTrait`. */
  predicate FailsEvidence<Name(==)>(people: map<Name, Person<Name>>, haveTrait: set<Name>) {
    exists person :: person in people && people[person].observed.Some? && people[person].observed.value != (person in haveTrait)
  }

  /** The people whose trait the data gives as `b`. */
  ghost function KnownWith<Name>(people: map<Name, Person<Name>>, b: bool): set<Name> {
    set person | person in people && people[person].observed == Some(b)
  }

  /** A hypothesis survives the evidence filter exactly when it includes
      everyone known to have the trait and no one known not to. */
  lemma EvidenceFilter<Name>(people: map<Name, Person<Name>>, haveTrait: set<Name>)
    ensures !FailsEvidence(people, haveTrait) <==>
      KnownWith(people, true) <= haveTrait && KnownWith(people, false) !! haveTrait
  {
    if FailsEvidence(people, haveTrait) {
      var person :| person in people && people[person].observed.Some? && people[person].observed.value != (person in haveTrait);
      if people[person].observed.value {
        assert person in KnownWith(people, true);
      } else {
        assert person in KnownWith(people, false);
      }
    }
  }

  // ---------------------------------------------------------------------
  // The probability table

  /** One person's unnormalised distributions: `genes[g]` is the weight of
      having g copies of the gene, `traits[TraitIndex(b)]` the weight of the
      trait being b. */
  datatype Distribution = Distribution(genes: seq<real>, traits: seq<real>)

  /** The position of a trait value, as Python's True == 1 and False == 0. */
  function TraitIndex(b: bool): nat {
    if b then 1 else 0
  }

  /** The shape the program sets up: gene counts 0, 1, 2 and trait false, true. */
  predicate WellShaped(d: Distribution) {
    |d.genes| == 3 && |d.traits| == 2
  }

  const Zero: Distribution := Distribution([0.0, 0.0, 0.0], [0.0, 0.0])

  function GeneSum(d: Distribution): real
    requires WellShaped(d)
  {
    d.genes[0] + d.genes[1] + d.genes[2]
  }

  function TraitSum(d: Distribution): real
    requires WellShaped(d)
  {
    d.traits[0] + d.traits[1]
  }

  /** The gene bucket `update` credits: one copy when in `oneGene` (whatever
      `twoGenes` says), two when only in `twoGenes`, else none. */
  function GeneBucket<Name(==)>(person: Name, oneGene: set<Name>, twoGenes: set<Name>): (r: nat)
    ensures r <= 2
    ensures r == 1 <==> person in oneGene
    ensures r == 2 <==> person !in oneGene && person in twoGenes
    ensures r == 0 <==> person !in oneGene && person !in twoGenes
  {
    if person in oneGene then 1 else if person in twoGenes then 2 else 0
  }

  /** On disjoint gene sets, which is all the program ever passes, the bucket
      credited is the gene count of the hypothesis. */
  lemma BucketIsGeneCount<Name>(person: Name, oneGene: set<Name>, twoGenes: set<Name>)
    requires oneGene !! twoGenes
    ensures GeneBucket(person, oneGene, twoGenes) == GeneCount(person, oneGene, twoGenes)
  {
  }

  /** The two precedences disagree on someone in both sets. */
  lemma BucketPrecedenceDiffers<Name>(person: Name, oneGene: set<Name>, twoGenes: set<Name>)
    requires person in oneGene && person in twoGenes
    ensures GeneBucket(person, oneGene, twoGenes) == 1 && GeneCount(person, oneGene, twoGenes) == 2
  {
  }

  /** A distribution with `p` added to gene bucket `g` and trait bucket `t`. */
  function Credit(d: Distribution, g: nat, t: bool, p: real): (r: Distribution)
    requires WellShaped(d) && g <= 2
    ensures WellShaped(r)
  {
    Distribution(d.genes[g := d.genes[g] + p], d.traits[TraitIndex(t) := d.traits[TraitIndex(t)] + p])
  }

  /** Crediting changes exactly the chosen gene entry and the chosen trait
      entry, by `p` each, so each total grows by `p`. */
  lemma CreditOneBucket(d: Distribution, g: nat, t: bool, p: real)
    requires WellShaped(d) && g <= 2
    ensures GeneSum(Credit(d, g, t, p)) == GeneSum(d) + p
    ensures TraitSum(Credit(d, g, t, p)) == TraitSum(d) + p
    ensures forall k :: 0 <= k < 3 ==> Credit(d, g, t, p).genes[k] == d.genes[k] + (if k == g then p else 0.0)
    ensures forall b :: Credit(d, g, t, p).traits[TraitIndex(b)] == d.traits[TraitIndex(b)] + (if b == t then p else 0.0)
  {
    assert g == 0 || g == 1 || g == 2;
  }

  /** Every entry of `xs` divided by `s`. */
  function Scale(xs: seq<real>, s: real): (r: seq<real>)
    requires s != 0.0
    ensures |r| == |xs| && forall i :: 0 <= i < |xs| ==> r[i] == xs[i] / s
  {
    seq(|xs|, i requires 0 <= i < |xs| => xs[i] / s)
  }

  /** A distribution with each part divided by its total, a part whose total is zero left as it is. */
  function Normalized(d: Distribution): (r: Distribution)
    requires WellShaped(d)
    ensures WellShaped(r)
  {
    var genes := if GeneSum(d) != 0.0 then Scale(d.genes, GeneSum(d)) else d.genes;
    var traits := if TraitSum(d) != 0.0 then Scale(d.traits, TraitSum(d)) else d.traits;
    Distribution(genes, traits)
  }

  lemma DivideSum3(a: real, b: real, c: real)
    requires a + b + c != 0.0
    ensures a / (a + b + c) + b / (a + b + c) + c / (a + b + c) == 1.0
  {
    var s := a + b + c;
    calc {
      a / s + b / s + c / s;
      (a + b + c) / s;
      s / s;
    }
  }

  lemma DivideSum2(a: real, b: real)
    requires a + b != 0.0
    ensures a / (a + b) + b / (a + b) == 1.0
  {
    var s := a + b;
    calc {
      a / s + b / s;
      (a + b) / s;
      s / s;
    }
  }

  /** Each part with a non-zero total sums to one after normalising; a part
      whose total is zero is left as it was. */
  lemma NormalizedSumsToOne(d: Distribution)
    requires WellShaped(d)
    ensures GeneSum(d) != 0.0 ==> GeneSum(Normalized(d)) == 1.0
    ensures TraitSum(d) != 0.0 ==> TraitSum(Normalized(d)) == 1.0
    ensures GeneSum(d) == 0.0 ==> Normalized(d).genes == d.genes
    ensures TraitSum(d) == 0.0 ==> Normalized(d).traits == d.traits
  {
    if GeneSum(d) != 0.0 {
      DivideSum3(d.genes[0], d.genes[1], d.genes[2]);
    }
    if TraitSum(d) != 0.0 {
      DivideSum2(d.traits[0], d.traits[1]);
    }
  }

  lemma RatioPair(ya: real, yb: real, xa: real, xb: real, s: real)
    requires ya * s == xa && yb * s == xb
    ensures ya * xb == yb * xa
  {
    calc {
      ya * xb;
      ya * (yb * s);
      yb * (ya * s);
      yb * xa;
    }
  }

  /** Dividing every entry by the same non-zero total keeps the ratio between any two entries. */
  lemma ScaleKeepsRatios(xs: seq<real>, s: real)
    requires s != 0.0
    ensures forall a, b :: 0 <= a < |xs| && 0 <= b < |xs| ==> Scale(xs, s)[a] * xs[b] == Scale(xs, s)[b] * xs[a]
  {
    var ys := Scale(xs, s);
    forall a, b | 0 <= a < |xs| && 0 <= b < |xs|
      ensures ys[a] * xs[b] == ys[b] * xs[a]
    {
      RatioPair(ys[a], ys[b], xs[a], xs[b], s);
    }
  }

  lemma QuotientTimesDivisor(xs: seq<real>, s: real)
    requires s != 0.0
    ensures forall i :: 0 <= i < |xs| ==> Scale(xs, s)[i] * s == xs[i]
  {
  }

  /** After normalising, each entry of a part with a non-zero total is its share of that total. */
  lemma NormalizedIsShare(d: Distribution)
    requires WellShaped(d)
    ensures GeneSum(d) != 0.0 ==> forall k :: 0 <= k < 3 ==> Normalized(d).genes[k] * GeneSum(d) == d.genes[k]
    ensures TraitSum(d) != 0.0 ==> forall b :: 0 <= b < 2 ==> Normalized(d).traits[b] * TraitSum(d) == d.traits[b]
  {
    if GeneSum(d) != 0.0 {
      QuotientTimesDivisor(d.genes, GeneSum(d));
    }
    if TraitSum(d) != 0.0 {
      QuotientTimesDivisor(d.traits, TraitSum(d));
    }
  }

  /** Normalising keeps the ratio between any two gene weights. */
  lemma NormalizedKeepsGeneRatios(d: Distribution)
    requires WellShaped(d)
    ensures forall a, b :: 0 <= a < 3 && 0 <= b < 3 ==> Normalized(d).genes[a] * d.genes[b] == Normalized(d).genes[b] * d.genes[a]
  {
    if GeneSum(d) != 0.0 {
      ScaleKeepsRatios(d.genes, GeneSum(d));
    }
  }

  /** Normalising keeps the ratio between the two trait weights. */
  lemma NormalizedKeepsTraitRatios(d: Distribution)
    requires WellShaped(d)
    ensures forall a, b :: 0 <= a < 2 && 0 <= b < 2 ==> Normalized(d).traits[a] * d.traits[b] == Normalized(d).traits[b] * d.traits[a]
  {
    if TraitSum(d) != 0.0 {
      ScaleKeepsRatios(d.traits, TraitSum(d));
    }
  }

  lemma FractionOfTotal(x: real, s: real)
    requires 0.0 <= x <= s && s != 0.0
    ensures 0.0 <= x / s <= 1.0
  {
  }

  /** A distribution with no negative entry normalises to entries between 0 and 1. */
  lemma NormalizedIsProbability(d: Distribution)
    requires WellShaped(d)
    requires forall k :: 0 <= k < 3 ==> d.genes[k] >= 0.0
    requires forall b :: 0 <= b < 2 ==> d.traits[b] >= 0.0
    ensures forall k :: 0 <= k < 3 ==> 0.0 <= Normalized(d).genes[k] <= 1.0
    ensures forall b :: 0 <= b < 2 ==> 0.0 <= Normalized(d).traits[b] <= 1.0
  {
    var n := Normalized(d);
    var s := GeneSum(d);
    forall k | 0 <= k < 3 ensures 0.0 <= n.genes[k] <= 1.0 {
      if s != 0.0 {
        FractionOfTotal(d.genes[k], s);
      }
    }
    var t := TraitSum(d);
    forall b | 0 <= b < 2 ensures 0.0 <= n.traits[b] <= 1.0 {
      if t != 0.0 {
        FractionOfTotal(d.traits[b], t);
      }
    }
  }

  /** Divide every entry of `xs` by `s`, one key after another. */
  method DivideAll(xs: seq<real>, s: real) returns (r: seq<real>)
    requires s != 0.0
    ensures r == Scale(xs, s)
  {
    r := xs;
    for k := 0 to |xs|
      invariant |r| == |xs|
      invariant forall i :: 0 <= i < k ==> r[i] == xs[i] / s
      invariant forall i :: k <= i < |xs| ==> r[i] == xs[i]
    {
      r := r[k := r[k] / s];
    }
  }

  /** Every distribution of a table has the program's shape. */
  ghost predicate TableShaped<Name>(table: map<Name, Distribution>) {
    forall person :: person in table ==> WellShaped(table[person])
  }

  /** `now` is `before` with one hypothesis credited to everyone not in `rest`. */
  ghost predicate CreditedOutside<Name>(before: map<Name, Distribution>, now: map<Name, Distribution>, rest: set<Name>,
                                       oneGene: set<Name>, twoGenes: set<Name>, haveTrait: set<Name>, p: real)
    requires TableShaped(before)
  {
    && now.Keys == before.Keys
    && forall person :: person in now ==>
         now[person] == if person in rest then before[person]
                        else Credit(before[person], GeneBucket(person, oneGene, twoGenes), person in haveTrait, p)
  }

  /** `now` is `before` with everyone not in `rest` normalised. */
  ghost predicate NormalizedOutside<Name>(before: map<Name, Distribution>, now: map<Name, Distribution>, rest: set<Name>)
    requires TableShaped(before)
  {
    && now.Keys == before.Keys
    && forall person :: person in now ==> now[person] == if person in rest then before[person] else Normalized(before[person])
  }

  /** The table of every person's gene and trait distributions. */
  class Probabilities<Name(==)> {
    var table: map<Name, Distribution>

    ghost predicate Valid()
      reads this
    {
      TableShaped(table)
    }

    /** Every person starts with all-zero distributions. */
    constructor (people: set<Name>)
      ensures Valid()
      ensures table == map person | person in people :: Zero
    {
      table := map person | person in people :: Zero;
    }

    /** Add the joint probability `p` of one hypothesis to each person's
        credited gene bucket and trait bucket. */
    method Update(oneGene: set<Name>, twoGenes: set<Name>, haveTrait: set<Name>, p: real)
      requires Valid()
      modifies this
      ensures Valid()
      ensures table.Keys == old(table).Keys
      ensures forall person :: person in table ==>
        table[person] == Credit(old(table)[person], GeneBucket(person, oneGene, twoGenes), person in haveTrait, p)
    {
      ghost var before := table;
      var rest := table.Keys;
      while rest != {}
        invariant rest <= table.Keys
        invariant CreditedOutside(before, table, rest, oneGene, twoGenes, haveTrait, p)
        decreases rest
      {
        var person :| person in rest;
        var d := table[person];
        var genes := d.genes;
        if person in oneGene {
          genes := genes[1 := genes[1] + p];
        } else if person in twoGenes {
          genes := genes[2 := genes[2] + p];
        } else {
          genes := genes[0 := genes[0] + p];
        }
        var traits := d.traits;
        if person in haveTrait {
          traits := traits[TraitIndex(true) := traits[TraitIndex(true)] + p];
        } else {
          traits := traits[TraitIndex(false) := traits[TraitIndex(false)] + p];
        }
        assert Distribution(genes, traits) == Credit(d, GeneBucket(person, oneGene, twoGenes), person in haveTrait, p);
        table := table[person := Distribution(genes, traits)];
        rest := rest - {person};
      }
    }

    /** Divide each person's gene and trait distributions by their totals. */
    method Normalize()
      requires Valid()
      modifies this
      ensures Valid()
      ensures table.Keys == old(table).Keys
      ensures forall person :: person in table ==> table[person] == Normalized(old(table)[person])
    {
      ghost var before := table;
      var rest := table.Keys;
      while rest != {}
        invariant rest <= table.Keys
        invariant NormalizedOutside(before, table, rest)
        decreases rest
      {
        var person :| person in rest;
        var d := table[person];
        var genes := d.genes;
        var geneSum := GeneSum(d);
        if geneSum != 0.0 {
          genes := DivideAll(genes, geneSum);
        }
        var traits := d.traits;
        var traitSum := TraitSum(d);
        if traitSum != 0.0 {
          traits := DivideAll(traits, traitSum);
        }
        table := table[person := Distribution(genes, traits)];
        rest := rest - {person};
      }
    }
  }
}
