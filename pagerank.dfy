/** PageRank: the random-surfer transition model, the sampling estimate of
    PageRank, and the clean-up of the link sets a crawl extracts.
    A corpus maps each page to the set of pages it links to. Page names are a
    type parameter. Probabilities are exact reals. Each random draw of the
    program becomes an arbitrary choice among the pages it could draw. */

module PageRank {
  import opened Wrappers

  type Corpus<P> = map<P, set<P>>

  /** Every link target is a page of the corpus (what the crawl's clean-up establishes). */
  ghost predicate LinkClosed<P>(corpus: Corpus<P>)
  {
    forall p :: p in corpus ==> corpus[p] <= corpus.Keys
  }

  // ---------------------------------------------------------------------
  // Sums over the keys of a map

  ghost function Pick<P>(s: set<P>): P
    requires s != {}
  {
    var x :| x in s; x
  }

  /** The sum of m's values over `keys`. */
  ghost function SumOver<P>(m: map<P, real>, keys: set<P>): real
    requires keys <= m.Keys
    decreases keys
  {
    if keys == {} then 0.0
    else
      var k := Pick(keys);
      m[k] + SumOver(m, keys - {k})
  }

  /** The total of the counts over `keys`. */
  ghost function Total<P>(c: map<P, nat>, keys: set<P>): nat
    requires keys <= c.Keys
    decreases keys
  {
    if keys == {} then 0
    else
      var k := Pick(keys);
      c[k] + Total(c, keys - {k})
  }

  /** Any key can be taken out of the total first. */
  lemma {:induction false} TotalSplit<P>(c: map<P, nat>, keys: set<P>, k: P)
    requires keys <= c.Keys && k in keys
    ensures Total(c, keys) == c[k] + Total(c, keys - {k})
    decreases keys
  {
    var j := Pick(keys);
    if j != k {
      TotalSplit(c, keys - {j}, k);
      TotalSplit(c, keys - {k}, j);
      assert keys - {j} - {k} == keys - {k} - {j};
    }
  }

  /** The total only depends on the counts of the keys summed over. */
  lemma {:induction false} TotalAgree<P>(c: map<P, nat>, e: map<P, nat>, keys: set<P>)
    requires keys <= c.Keys && keys <= e.Keys
    requires forall k :: k in keys ==> c[k] == e[k]
    ensures Total(c, keys) == Total(e, keys)
    decreases keys
  {
    if keys != {} {
      TotalAgree(c, e, keys - {Pick(keys)});
    }
  }

  /** Adding one to a single count adds one to the total. */
  lemma TotalIncrement<P>(c: map<P, nat>, keys: set<P>, k: P)
    requires keys <= c.Keys && k in keys
    ensures Total(c[k := c[k] + 1], keys) == Total(c, keys) + 1
  {
    var e := c[k := c[k] + 1];
    TotalSplit(c, keys, k);
    TotalSplit(e, keys, k);
    TotalAgree(c, e, keys - {k});
  }

  /** k copies of x added up. */
  function Times(k: nat, x: real): (r: real)
  {
    if k == 0 then 0.0 else Times(k - 1, x) + x
  }

  lemma {:induction false} TimesIsProduct(k: nat, x: real)
    ensures Times(k, x) == k as real * x
  {
    if k > 0 {
      TimesIsProduct(k - 1, x);
    }
  }

  /** A map whose values take one of two values, chosen by membership in `links`, sums to
      |keys| copies of the first plus |keys * links| copies of the extra. */
  lemma {:induction false} SumTwoValued<P>(m: map<P, real>, keys: set<P>, links: set<P>, base: real, extra: real)
    requires keys <= m.Keys
    requires forall k :: k in keys ==> m[k] == if k in links then base + extra else base
    ensures SumOver(m, keys) == Times(|keys|, base) + Times(|keys * links|, extra)
    decreases keys
  {
    if keys != {} {
      var k := Pick(keys);
      var rest := keys - {k};
      SumTwoValued(m, rest, links, base, extra);
      assert |keys| == |rest| + 1;
      if k in links {
        assert keys * links == rest * links + {k};
        assert |keys * links| == |rest * links| + 1;
      } else {
        assert keys * links == rest * links;
      }
    }
  }

  /** A positive sum has a positive term. */
  lemma {:induction false} PositiveSumHasPositive<P>(m: map<P, real>, keys: set<P>)
    requires keys <= m.Keys && SumOver(m, keys) > 0.0
    ensures exists k :: k in keys && m[k] > 0.0
    decreases keys
  {
    var k := Pick(keys);
    if m[k] <= 0.0 {
      PositiveSumHasPositive(m, keys - {k});
    }
  }

  /** Dividing every count by n divides the total by n. */
  lemma {:induction false} SumOfShares<P>(m: map<P, real>, c: map<P, nat>, keys: set<P>, n: int)
    requires keys <= m.Keys && keys <= c.Keys && n != 0
    requires forall k :: k in keys ==> m[k] == c[k] as real / n as real
    ensures SumOver(m, keys) == Total(c, keys) as real / n as real
    decreases keys
  {
    if keys != {} {
      var k := Pick(keys);
      SumOfShares(m, c, keys - {k}, n);
      AddQuotients(c[k] as real, Total(c, keys - {k}) as real, n as real);
    }
  }

  lemma AddQuotients(x: real, y: real, n: real)
    requires n != 0.0
    ensures x / n + y / n == (x + y) / n
  {
    assert (x / n) * n == x;
    assert (y / n) * n == y;
    assert (x / n + y / n) * n == x + y;
  }

  // ---------------------------------------------------------------------
  // Transition model (pagerank.py, transition_model)

  /** The pages a surfer on `page` follows a link to: all pages when it has no links. */
  function Links<P>(corpus: Corpus<P>, page: P): set<P>
    requires page in corpus
  {
    if corpus[page] == {} then corpus.Keys else corpus[page]
  }

  /** The probability of moving from `page` to `q`, damping factor d, over N pages and L links. */
  function TransitionProbability<P>(corpus: Corpus<P>, page: P, d: real, q: P): real
    requires page in corpus
  {
    var probRandom := (1.0 - d) / |corpus| as real;
    if q in Links(corpus, page) then probRandom + d / |Links(corpus, page)| as real else probRandom
  }

  /** The distribution over the next page, as a map over the corpus pages. */
  function TransitionDistribution<P(==)>(corpus: Corpus<P>, page: P, d: real): (r: map<P, real>)
    requires page in corpus
    ensures r.Keys == corpus.Keys
  {
    map q | q in corpus :: TransitionProbability(corpus, page, d, q)
  }

  /** transition_model: builds the distribution one corpus page at a time. */
  method TransitionModel<P(==)>(corpus: Corpus<P>, page: P, d: real) returns (r: map<P, real>)
    requires page in corpus
    ensures r == TransitionDistribution(corpus, page, d)
  {
    var totalPages := |corpus|;
    var links := corpus[page];
    if links == {} {
      links := corpus.Keys;
    }
    var numLinks := |links|;
    var probRandom := (1.0 - d) / totalPages as real;
    var probLink := d / numLinks as real;
    r := map[];
    var pending := corpus.Keys;
    while pending != {}
      invariant pending <= corpus.Keys
      invariant r.Keys == corpus.Keys - pending
      invariant forall q :: q in r ==> r[q] == TransitionProbability(corpus, page, d, q)
      decreases pending
    {
      var pg :| pg in pending;
      if pg in links {
        r := r[pg := probRandom + probLink];
      } else {
        r := r[pg := probRandom];
      }
      pending := pending - {pg};
    }
  }

  /** Over a corpus whose page links stay inside it, the next-page probabilities sum to 1,
      whatever the damping factor. */
  lemma TransitionSumsToOne<P>(corpus: Corpus<P>, page: P, d: real)
    requires page in corpus && corpus[page] <= corpus.Keys
    ensures SumOver(TransitionDistribution(corpus, page, d), corpus.Keys) == 1.0
  {
    var links := Links(corpus, page);
    assert corpus.Keys * links == links;
    assert |corpus.Keys| == |corpus| && |links| > 0;
    var base := (1.0 - d) / |corpus| as real;
    var extra := d / |links| as real;
    SumTwoValued(TransitionDistribution(corpus, page, d), corpus.Keys, links, base, extra);
    SharesAddUp(|corpus|, |links|, d);
  }

  /** N shares of (1 - d) / N and L shares of d / L add up to 1. */
  lemma SharesAddUp(n: nat, l: nat, d: real)
    requires n > 0 && l > 0
    ensures Times(n, (1.0 - d) / n as real) + Times(l, d / l as real) == 1.0
  {
    TimesIsProduct(n, (1.0 - d) / n as real);
    TimesIsProduct(l, d / l as real);
    TimesQuotient(1.0 - d, n as real);
    TimesQuotient(d, l as real);
  }

  lemma TimesQuotient(x: real, n: real)
    requires n != 0.0
    ensures n * (x / n) == x
  {
  }

  /** With a damping factor between 0 and 1 every probability lies between 0 and 1, and a
      linked page is at least as likely as an unlinked one. */
  lemma TransitionBounds<P>(corpus: Corpus<P>, page: P, d: real, q: P, u: P)
    requires page in corpus && 0.0 <= d <= 1.0
    requires q in Links(corpus, page)
    ensures 0.0 <= TransitionProbability(corpus, page, d, u) <= 1.0
    ensures TransitionProbability(corpus, page, d, u) <= TransitionProbability(corpus, page, d, q)
  {
    var n := |corpus| as real;
    var l := |Links(corpus, page)| as real;
    assert Links(corpus, page) <= corpus.Keys || Links(corpus, page) == corpus[page];
    assert n >= 1.0 && l >= 1.0;
    assert 0.0 <= (1.0 - d) / n <= 1.0 - d;
    assert 0.0 <= d / l <= d;
  }

  /** With a damping factor between 0 and 1 no next page has negative probability. */
  lemma TransitionNonNegative<P>(corpus: Corpus<P>, page: P, d: real)
    requires page in corpus && 0.0 <= d <= 1.0
    ensures forall q :: q in corpus ==> TransitionDistribution(corpus, page, d)[q] >= 0.0
  {
    var links := Links(corpus, page);
    assert links != {} by {
      if corpus[page] == {} {
        assert page in links;
      }
    }
    var w :| w in links;
    forall q | q in corpus
      ensures TransitionDistribution(corpus, page, d)[q] >= 0.0
    {
      TransitionBounds(corpus, page, d, w, q);
    }
  }

  /** A page without links sends the surfer to every page with the same probability 1/N. */
  lemma NoLinksIsUniform<P>(corpus: Corpus<P>, page: P, d: real, q: P)
    requires page in corpus && corpus[page] == {} && q in corpus
    ensures TransitionDistribution(corpus, page, d)[q] == 1.0 / |corpus| as real
  {
    var n := |corpus| as real;
    assert |Links(corpus, page)| == |corpus|;
    assert n > 0.0;
    calc {
      (1.0 - d) / n + d / n;
      1.0 / n;
    }
  }

  /** The three-page corpus in which page 1 links to 2 and 3, and 2 and 3 link to each other:
      with damping 0.85 the surfer on page 1 moves to 1, 2 and 3 with 0.05, 0.475 and 0.475. */
  lemma ThreePageExample()
    ensures TransitionDistribution(map[1 := {2, 3}, 2 := {3}, 3 := {2}], 1, 0.85)
         == map[1 := 0.05, 2 := 0.475, 3 := 0.475]
  {
    var corpus := map[1 := {2, 3}, 2 := {3}, 3 := {2}];
    assert corpus.Keys == {1, 2, 3};
    assert |{2, 3}| == 2 by { assert {2, 3} == {2} + {3}; }
    assert |{1, 2, 3}| == 3 by { assert {1, 2, 3} == {1, 2} + {3}; assert {1, 2} == {1} + {2}; }
    assert |corpus| == 3;
    assert Links(corpus, 1) == {2, 3};
  }

  // ---------------------------------------------------------------------
  // Sampling (pagerank.py, sample_pagerank)

  datatype SampleError =
    | EmptyCorpus    // random.choice on an empty list of pages
    | NoWeight       // random.choices when every weight is zero
    | ZeroSamples    // dividing the counts by n == 0

  /** No next page has positive probability, so a weighted draw is impossible. */
  ghost predicate NoPositiveWeight<P>(corpus: Corpus<P>, page: P, d: real)
    requires page in corpus
  {
    forall q :: q in corpus ==> TransitionDistribution(corpus, page, d)[q] <= 0.0
  }

  /** Over a link-closed corpus some next page always has positive probability, so the
      weighted draw cannot fail. */
  lemma ClosedCorpusHasWeight<P>(corpus: Corpus<P>, page: P, d: real)
    requires page in corpus && LinkClosed(corpus)
    ensures !NoPositiveWeight(corpus, page, d)
  {
    TransitionSumsToOne(corpus, page, d);
    PositiveSumHasPositive(TransitionDistribution(corpus, page, d), corpus.Keys);
  }

  /** random.choices over the keys of `weights`, weighted by the values: some key of
      positive weight, or None (a ValueError) when no weight is positive. */
  method WeightedChoice<P(==)>(weights: map<P, real>) returns (r: Option<P>)
    requires forall q :: q in weights ==> weights[q] >= 0.0
    ensures r.None? <==> forall q :: q in weights ==> weights[q] <= 0.0
    ensures r.Some? ==> r.value in weights && weights[r.value] > 0.0
  {
    if exists q :: q in weights && weights[q] > 0.0 {
      var q :| q in weights && weights[q] > 0.0;
      return Some(q);
    }
    return None;
  }

  /** The counting loop: starting on an arbitrary page, n times count the current page and
      move to a page drawn from its transition model. A draw picks some page of positive
      weight; which one is left open. */
  method CountVisits<P(==)>(corpus: Corpus<P>, d: real, n: int) returns (r: Result<map<P, nat>, SampleError>)
    requires 0.0 <= d <= 1.0
    ensures r.Success? ==> Counted(r.value, corpus.Keys, if n > 0 then n else 0)
    ensures r.Failure? ==>
              || (r.error == EmptyCorpus && corpus == map[])
              || (r.error == NoWeight && exists p :: p in corpus && NoPositiveWeight(corpus, p, d))
    ensures corpus == map[] ==> r == Failure(EmptyCorpus)
    ensures corpus != map[] && n <= 0 ==> r.Success?
  {
    var counter: map<P, nat> := map p | p in corpus :: 0;
    if corpus == map[] {
      return Failure(EmptyCorpus);
    }
    assert corpus.Keys != {};
    var picked :| picked in corpus;
    ZeroTotal(counter, corpus.Keys);
    var i := 0;
    while i < n
      invariant 0 <= i <= (if n > 0 then n else 0)
      invariant picked in corpus
      invariant Counted(counter, corpus.Keys, i)
      decreases n - i
    {
      CountedStep(counter, corpus.Keys, i, picked);
      counter := counter[picked := counter[picked] + 1];
      var tmodel := TransitionModel(corpus, picked, d);
      TransitionNonNegative(corpus, picked, d);
      var next := WeightedChoice(tmodel);
      if next.None? {
        assert NoPositiveWeight(corpus, picked, d);
        return Failure(NoWeight);
      }
      picked := next.value;
      i := i + 1;
    }
    assert i == (if n > 0 then n else 0);
    return Success(counter);
  }

  /** The counter has exactly the keys `keys`, and its counts total `i`. */
  ghost predicate Counted<P>(c: map<P, nat>, keys: set<P>, i: int)
  {
    c.Keys == keys && Total(c, keys) == i
  }

  /** A counter of zeros has counted nothing. */
  lemma {:induction false} ZeroTotal<P>(c: map<P, nat>, keys: set<P>)
    requires c.Keys == keys && forall k :: k in keys ==> c[k] == 0
    ensures Counted(c, keys, 0)
    decreases keys
  {
    if keys != {} {
      var k := Pick(keys);
      ZeroTotal(c - {k}, keys - {k});
      TotalAgree(c, c - {k}, keys - {k});
    }
  }

  /** Counting one more visit to a page of the corpus. */
  lemma CountedStep<P>(c: map<P, nat>, keys: set<P>, i: int, p: P)
    requires Counted(c, keys, i) && p in keys
    ensures Counted(c[p := c[p] + 1], keys, i + 1)
  {
    TotalIncrement(c, keys, p);
  }

  /** sample_pagerank: the visit counts divided by the number of samples. Over n > 0 samples
      the estimates lie between 0 and 1 and sum to 1. */
  method SamplePagerank<P(==)>(corpus: Corpus<P>, d: real, n: int) returns (r: Result<map<P, real>, SampleError>)
    requires 0.0 <= d <= 1.0
    ensures r.Success? ==> r.value.Keys == corpus.Keys
    ensures r.Success? && n > 0 ==> SumOver(r.value, corpus.Keys) == 1.0
    ensures r.Success? && n > 0 ==> forall p :: p in r.value ==> 0.0 <= r.value[p] <= 1.0
    ensures r.Success? && n > 0 ==>
              exists visits: map<P, nat> :: Counted(visits, corpus.Keys, n)
                && forall p :: p in corpus ==> r.value[p] == visits[p] as real / n as real
    ensures r.Success? && n < 0 ==> forall p :: p in r.value ==> r.value[p] == 0.0
    ensures corpus == map[] ==> r == Failure(EmptyCorpus)
    ensures corpus != map[] && n == 0 ==> r == Failure(ZeroSamples)
    ensures r.Failure? && r.error == NoWeight ==> exists p :: p in corpus && NoPositiveWeight(corpus, p, d)
    ensures LinkClosed(corpus) && corpus != map[] && n != 0 ==> r.Success?
  {
    var visits := CountVisits(corpus, d, n);
    if visits.Failure? {
      if visits.error == NoWeight && LinkClosed(corpus) {
        var p :| p in corpus && NoPositiveWeight(corpus, p, d);
        ClosedCorpusHasWeight(corpus, p, d);
        assert false;
      }
      return Failure(visits.error);
    }
    var counter := visits.value;
    if n == 0 {
      return Failure(ZeroSamples);
    }
    var rank: map<P, real> := map[];
    var pending := corpus.Keys;
    while pending != {}
      invariant pending <= corpus.Keys
      invariant rank.Keys == corpus.Keys - pending
      invariant forall p :: p in rank ==> rank[p] == counter[p] as real / n as real
      decreases pending
    {
      var page :| page in pending;
      rank := rank[page := counter[page] as real / n as real];
      pending := pending - {page};
    }
    if n > 0 {
      SharesSumToOne(rank, counter, corpus.Keys, n);
      assert Counted(counter, corpus.Keys, n);
    } else {
      NothingCounted(counter, corpus.Keys);
    }
    return Success(rank);
  }

  /** A counter whose counts total 0 has every count 0. */
  lemma NothingCounted<P>(counter: map<P, nat>, keys: set<P>)
    requires keys <= counter.Keys && Total(counter, keys) == 0
    ensures forall p :: p in keys ==> counter[p] == 0
  {
    forall p | p in keys
      ensures counter[p] == 0
    {
      TotalSplit(counter, keys, p);
    }
  }

  /** Visit counts over n > 0 samples that total n, each divided by n, are fractions
      between 0 and 1 that add up to 1. */
  lemma SharesSumToOne<P>(rank: map<P, real>, counter: map<P, nat>, keys: set<P>, n: int)
    requires keys <= rank.Keys && keys <= counter.Keys && n > 0
    requires Total(counter, keys) == n
    requires forall p :: p in keys ==> rank[p] == counter[p] as real / n as real
    ensures SumOver(rank, keys) == 1.0
    ensures forall p :: p in keys ==> 0.0 <= rank[p] <= 1.0
  {
    SumOfShares(rank, counter, keys, n);
    Fraction(n as real, n as real);
    forall p | p in keys
      ensures 0.0 <= rank[p] <= 1.0
    {
      TotalSplit(counter, keys, p);
      Fraction(counter[p] as real, n as real);
    }
  }

  lemma Fraction(c: real, n: real)
    requires 0.0 <= c <= n && n > 0.0
    ensures 0.0 <= c / n <= 1.0
    ensures n / n == 1.0
  {
  }


  // ---------------------------------------------------------------------
  // Link clean-up (pagerank.py, crawl)

  /** crawl's two passes over the link sets extracted from each page: first drop the page's
      link to itself, then drop every link to a page outside the corpus. */
  method FilterLinks<P(==)>(extracted: Corpus<P>) returns (pages: Corpus<P>)
    ensures pages.Keys == extracted.Keys
    ensures forall f :: f in pages ==> pages[f] == (extracted[f] - {f}) * extracted.Keys
    ensures forall f :: f in pages ==> f !in pages[f]
    ensures LinkClosed(pages)
  {
    pages := map[];
    var pending := extracted.Keys;
    while pending != {}
      invariant pending <= extracted.Keys
      invariant pages.Keys == extracted.Keys - pending
      invariant forall f :: f in pages ==> pages[f] == extracted[f] - {f}
      decreases pending
    {
      var f :| f in pending;
      pages := pages[f := extracted[f] - {f}];
      pending := pending - {f};
    }
    pending := pages.Keys;
    while pending != {}
      invariant pending <= pages.Keys && pages.Keys == extracted.Keys
      invariant forall f :: f in pending ==> pages[f] == extracted[f] - {f}
      invariant forall f :: f in pages && f !in pending ==> pages[f] == (extracted[f] - {f}) * extracted.Keys
      decreases pending
    {
      var f :| f in pending;
      pages := pages[f := set link | link in pages[f] && link in pages];
      pending := pending - {f};
    }
  }
}
