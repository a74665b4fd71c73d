/** The optimiser: a population of `Schedule` objects, the in-place genetic
    operators and the generational loop that records the best penalty of
    every generation.

    Python's reference semantics are kept. `crossover`, `mutate` and
    `post_process` return the very objects they are given, so a child IS
    its parent: a parent drawn from the elite prefix is changed in place
    although it already sits in the next generation, and the same object
    can occupy several places of a population. No new `Schedule` is made
    after the first population, so every population is drawn from that
    first pool of objects. A grid is kept as a value: crossover only moves
    whole class rows from one object to the other and mutation writes into
    its own object's rows, so no row is ever shared by two objects.

    The methods are specified against value-level functions: which objects
    a generation holds (`Bred`, `RankBy`) and what grid each object of the
    pool holds afterwards (`BreedGrids`, a map from objects to grids). */
module Genetic {
  import opened Timetable
  import opened Penalty
  import opened Operators
  import opened Sorting

  /** The draws of one iteration of the breeding loop: two distinct
      positions of `population[:50]` (`random.sample`), the crossover draws
      and the mutation draws for each child. */
  datatype PairDraw = PairDraw(first: nat, second: nat, crossover: CrossoverDraw,
                               mutation1: MutationDraw, mutation2: MutationDraw)

  ghost predicate PairDrawFits(p: PairDraw, cat: Catalog, window: nat) {
    && p.first < window && p.second < window && p.first != p.second
    && CrossoverDrawFits(p.crossover, cat.classes)
    && MutationDrawFits(p.mutation1, cat) && MutationDrawFits(p.mutation2, cat)
  }

  /** Every draw samples positions below `window`. */
  predicate DrawsWithin(draws: seq<PairDraw>, window: nat) {
    forall k :: 0 <= k < |draws| ==> draws[k].first < window && draws[k].second < window
  }

  ghost predicate DrawsFit(draws: seq<PairDraw>, cat: Catalog, window: nat) {
    DrawsWithin(draws, window) && forall k :: 0 <= k < |draws| ==> PairDrawFits(draws[k], cat, window)
  }

  /** Breeding-loop iterations per generation: two children each until the
      elite prefix has grown to the population size. */
  function PairsPerGeneration(populationSize: nat, eliteSize: nat): (n: nat)
    ensures eliteSize >= populationSize ==> n == 0
    ensures eliteSize < populationSize ==> eliteSize + 2 * (n - 1) < populationSize <= eliteSize + 2 * n
  {
    if eliteSize >= populationSize then 0 else (populationSize - eliteSize + 1) / 2
  }

  /** The length of every population after the first: at least the
      configured size, and one more exactly when an odd number of children
      was needed. */
  function GenerationSize(populationSize: nat, eliteSize: nat): (n: nat)
    ensures populationSize <= n <= populationSize + 1
    ensures n == populationSize + 1 <==> eliteSize < populationSize && (populationSize - eliteSize) % 2 == 1
  {
    eliteSize + 2 * PairsPerGeneration(populationSize, eliteSize)
      - (if eliteSize >= populationSize then eliteSize - populationSize else 0)
  }

  // ---------------------------------------------------------------------
  // Which objects a generation holds

  /** `population[:50]`, the members `random.sample` draws parents from. */
  function Window(population: seq<Schedule>): (w: seq<Schedule>)
    ensures |w| == Min(|population|, 50)
    ensures forall s :: s in w ==> s in population
  {
    population[..Min(|population|, 50)]
  }

  /** The children the breeding loop appends, two per draw: the sampled
      parents themselves, first then second. */
  function Offspring(window: seq<Schedule>, draws: seq<PairDraw>): (children: seq<Schedule>)
    requires DrawsWithin(draws, |window|)
    ensures |children| == 2 * |draws|
    ensures forall s :: s in children ==> s in window
    decreases |draws|
  {
    if draws == [] then []
    else
      var d := draws[|draws| - 1];
      Offspring(window, draws[..|draws| - 1]) + [window[d.first], window[d.second]]
  }

  /** Child `2k` is the first parent sampled by draw `k`, child `2k + 1` the
      second. */
  lemma {:induction false} OffspringPairs(window: seq<Schedule>, draws: seq<PairDraw>, k: nat)
    requires DrawsWithin(draws, |window|) && k < |draws|
    ensures Offspring(window, draws)[2 * k] == window[draws[k].first]
    ensures Offspring(window, draws)[2 * k + 1] == window[draws[k].second]
    decreases |draws|
  {
    var n := |draws| - 1;
    if k < n {
      var pre := draws[..n];
      assert pre[k] == draws[k];
      OffspringPairs(window, pre, k);
    }
  }

  lemma AppendAssociates<T>(a: seq<T>, b: seq<T>, c: seq<T>)
    ensures (a + b) + c == a + (b + c)
  {
  }

  /** The population the breeding loop builds: the elite prefix
      `population[:elite_size]`, then the children. */
  function Bred(population: seq<Schedule>, draws: seq<PairDraw>, eliteSize: nat): (next: seq<Schedule>)
    requires DrawsWithin(draws, |Window(population)|)
    ensures |next| == Min(eliteSize, |population|) + 2 * |draws|
    ensures next[..Min(eliteSize, |population|)] == population[..Min(eliteSize, |population|)]
    ensures forall s :: s in next ==> s in population
  {
    var elite := population[..Min(eliteSize, |population|)];
    var next := elite + Offspring(Window(population), draws);
    assert next[..|elite|] == elite;
    next
  }

  // ---------------------------------------------------------------------
  // What grid each object holds

  /** A grid for every object, of the catalog's shape and with lessons in
      every class. */
  ghost predicate Fit(grids: map<Schedule, Grid>, cat: Catalog) {
    forall s :: s in grids ==> Shaped(grids[s], cat.classes, cat.days, cat.lessons) && EveryClassTeaches(grids[s])
  }

  /** The objects of `pool` hold exactly the grids `grids` records. */
  ghost predicate GridsAre(pool: set<Schedule>, grids: map<Schedule, Grid>)
    reads pool
  {
    grids.Keys == pool && forall s :: s in pool ==> s.grid == grids[s]
  }

  /** Objects holding the grids of a fit map are well shaped. */
  lemma PoolValid(pool: set<Schedule>, grids: map<Schedule, Grid>, cat: Catalog)
    requires GridsAre(pool, grids) && Fit(grids, cat)
    requires forall s :: s in pool ==> s.Vocabulary() == cat
    ensures forall s :: s in pool ==> s.Valid()
  {
    forall s | s in pool ensures s.Valid() {
      assert s.grid == grids[s];
    }
  }

  /** After breeding, every object of the pool is still a member, and a
      population drawn from it can be sorted by the grids it holds. */
  lemma PoolMembers(pool: set<Schedule>, grids: map<Schedule, Grid>, cat: Catalog, population: seq<Schedule>)
    requires GridsAre(pool, grids) && Fit(grids, cat)
    requires forall s :: s in pool ==> s.Vocabulary() == cat
    requires forall s :: s in population ==> s in pool
    ensures forall s :: s in pool ==> Member(s, cat)
    ensures forall s :: s in population ==> s in grids && s.grid == grids[s] && EveryClassTeaches(s.grid)
  {
    forall s | s in pool ensures Member(s, cat) {
      assert s.grid == grids[s];
    }
  }

  /** A population of pool objects in ascending order of the penalties of
      their recorded grids is ranked. */
  lemma RankedByGrids(population: seq<Schedule>, pool: set<Schedule>, grids: map<Schedule, Grid>, cat: Catalog)
    requires GridsAre(pool, grids) && Fit(grids, cat)
    requires forall s :: s in pool ==> s.Vocabulary() == cat
    requires forall s :: s in population ==> s in pool
    requires forall i, j :: 0 <= i < j < |population| ==> Fitness(grids[population[i]]) <= Fitness(grids[population[j]])
    ensures Ranked(population, pool, cat)
    ensures forall i :: 0 <= i < |population| ==> EveryClassTeaches(population[i].grid)
  {
    PoolMembers(pool, grids, cat, population);
  }

  /** The pool holds `grids` and `population`, drawn from it, is ranked. */
  ghost predicate Settled(pool: set<Schedule>, grids: map<Schedule, Grid>, population: seq<Schedule>, cat: Catalog)
    reads pool
  {
    && GridsAre(pool, grids) && Ranked(population, pool, cat)
    && forall i :: 0 <= i < |population| ==> EveryClassTeaches(population[i].grid)
  }

  /** Recording a new grid of the catalog's shape for an object already
      recorded keeps the map fit and its objects the same. */
  lemma FitUpdate(grids: map<Schedule, Grid>, cat: Catalog, s: Schedule, g: Grid)
    requires Teachable(cat) && Fit(grids, cat) && s in grids
    requires Shaped(g, cat.classes, cat.days, cat.lessons)
    ensures grids[s := g].Keys == grids.Keys && Fit(grids[s := g], cat)
  {
    ShapedClassesTeach(g, cat);
  }

  /** The grids after `crossover` of the objects `p1` and `p2`. */
  ghost function CrossIn(grids: map<Schedule, Grid>, p1: Schedule, p2: Schedule, x: CrossoverDraw, cat: Catalog)
    : (r: map<Schedule, Grid>)
    requires Teachable(cat) && Fit(grids, cat) && p1 in grids && p2 in grids
    ensures r.Keys == grids.Keys && Fit(r, cat)
    ensures forall s :: s in grids && s != p1 && s != p2 ==> r[s] == grids[s]
  {
    var children := Crossed(grids[p1], grids[p2], x);
    CrossoverKeepsShape(grids[p1], grids[p2], x, cat);
    FitUpdate(grids, cat, p1, children.0);
    FitUpdate(grids[p1 := children.0], cat, p2, children.1);
    grids[p1 := children.0][p2 := children.1]
  }

  /** The grids after `mutate` of the object `p`. */
  ghost function MutateIn(grids: map<Schedule, Grid>, p: Schedule, m: MutationDraw, cat: Catalog): (r: map<Schedule, Grid>)
    requires Teachable(cat) && Fit(grids, cat) && p in grids && MutationDrawFits(m, cat)
    ensures r.Keys == grids.Keys && Fit(r, cat)
    ensures forall s :: s in grids && s != p ==> r[s] == grids[s]
  {
    MutationTouchesOneCell(grids[p], m, cat);
    FitUpdate(grids, cat, p, MutatedGrid(grids[p], m));
    grids[p := MutatedGrid(grids[p], m)]
  }

  /** The grids after one iteration of the breeding loop: crossover of the
      two sampled parents, mutation of the first child, then mutation of the
      second. The repair pass changes nothing. When both positions hold the
      same object, each step acts on that one object. */
  ghost function BreedStep(grids: map<Schedule, Grid>, window: seq<Schedule>, d: PairDraw, cat: Catalog): (r: map<Schedule, Grid>)
    requires Teachable(cat) && Fit(grids, cat)
    requires forall s :: s in window ==> s in grids
    requires PairDrawFits(d, cat, |window|)
    ensures r.Keys == grids.Keys && Fit(r, cat)
    ensures forall s :: s in grids && s != window[d.first] && s != window[d.second] ==> r[s] == grids[s]
  {
    var p1, p2 := window[d.first], window[d.second];
    assert p1 in grids && p2 in grids;
    var crossed := CrossIn(grids, p1, p2, d.crossover, cat);
    MutateIn(MutateIn(crossed, p1, d.mutation1, cat), p2, d.mutation2, cat)
  }

  /** The grids after the whole breeding loop of one generation. */
  ghost function BreedGrids(grids: map<Schedule, Grid>, window: seq<Schedule>, draws: seq<PairDraw>, cat: Catalog)
    : (r: map<Schedule, Grid>)
    requires Teachable(cat) && Fit(grids, cat)
    requires forall s :: s in window ==> s in grids
    requires DrawsFit(draws, cat, |window|)
    ensures r.Keys == grids.Keys && Fit(r, cat)
    ensures forall s :: s in grids && s !in window ==> r[s] == grids[s]
    decreases |draws|
  {
    if draws == [] then grids
    else
      var before := BreedGrids(grids, window, draws[..|draws| - 1], cat);
      BreedStep(before, window, draws[|draws| - 1], cat)
  }

  /** One more draw appends its two sampled parents. */
  lemma OffspringStep(window: seq<Schedule>, draws: seq<PairDraw>, k: nat)
    requires DrawsWithin(draws, |window|) && k < |draws|
    ensures DrawsWithin(draws[..k], |window|) && DrawsWithin(draws[..k + 1], |window|)
    ensures Offspring(window, draws[..k + 1]) == Offspring(window, draws[..k]) + [window[draws[k].first], window[draws[k].second]]
  {
    var pre := draws[..k + 1];
    forall j | 0 <= j < k + 1
      ensures pre[j].first < |window| && pre[j].second < |window|
    {
      assert pre[j] == draws[j];
    }
    forall j | 0 <= j < k
      ensures draws[..k][j].first < |window| && draws[..k][j].second < |window|
    {
      assert draws[..k][j] == draws[j];
    }
    assert pre[..|pre| - 1] == draws[..k];
    assert pre[|pre| - 1] == draws[k];
  }

  /** One more draw applies one more breeding step to the grids. */
  lemma BreedGridsStep(grids: map<Schedule, Grid>, window: seq<Schedule>, draws: seq<PairDraw>, cat: Catalog, k: nat)
    requires Teachable(cat) && Fit(grids, cat)
    requires forall s :: s in window ==> s in grids
    requires DrawsFit(draws, cat, |window|) && k < |draws|
    ensures DrawsFit(draws[..k], cat, |window|) && DrawsFit(draws[..k + 1], cat, |window|)
    ensures Fit(BreedGrids(grids, window, draws[..k], cat), cat)
    ensures BreedGrids(grids, window, draws[..k + 1], cat)
      == BreedStep(BreedGrids(grids, window, draws[..k], cat), window, draws[k], cat)
  {
    assert draws[..k + 1][..k] == draws[..k];
  }

  // ---------------------------------------------------------------------
  // Sorting a population by penalty

  /** Every member has a recorded grid with lessons in every class. */
  ghost predicate Scored(population: seq<Schedule>, grids: map<Schedule, Grid>) {
    forall s :: s in population ==> s in grids && EveryClassTeaches(grids[s])
  }

  /** Each pair's key is the penalty of its member's recorded grid. */
  ghost predicate KeyedBy(keyed: seq<Keyed<Schedule>>, grids: map<Schedule, Grid>) {
    forall k :: 0 <= k < |keyed| ==>
      keyed[k].item in grids && EveryClassTeaches(grids[keyed[k].item])
      && keyed[k].key == Fitness(grids[keyed[k].item])
  }

  /** The `(penalty, member)` pairs `sorted(population, key=self.fitness)`
      orders, in population order. */
  ghost function Keys(population: seq<Schedule>, grids: map<Schedule, Grid>): (keyed: seq<Keyed<Schedule>>)
    requires Scored(population, grids)
    ensures Items(keyed) == population
    ensures KeyedBy(keyed, grids)
  {
    var keyed := seq(|population|, i requires 0 <= i < |population| && Scored(population, grids) =>
                       Keyed(Fitness(grids[population[i]]), population[i]));
    assert Items(keyed) == population;
    keyed
  }

  /** Sorting moves pairs without changing them, so their keys stay right. */
  lemma SortKeepsKeys(keyed: seq<Keyed<Schedule>>, grids: map<Schedule, Grid>)
    requires KeyedBy(keyed, grids)
    ensures KeyedBy(SortByKey(keyed), grids)
  {
    var sorted := SortByKey(keyed);
    forall k | 0 <= k < |sorted|
      ensures sorted[k].item in grids && EveryClassTeaches(grids[sorted[k].item])
      ensures sorted[k].key == Fitness(grids[sorted[k].item])
    {
      assert sorted[k] in multiset(keyed);
      var j :| 0 <= j < |keyed| && keyed[j] == sorted[k];
    }
  }

  /** `sorted(population, key=self.fitness)`, the penalties taken from the
      grids the members hold at that moment: the same members, in ascending
      order of penalty. */
  ghost function RankBy(population: seq<Schedule>, grids: map<Schedule, Grid>): (ranked: seq<Schedule>)
    requires Scored(population, grids)
    ensures multiset(ranked) == multiset(population)
    ensures Scored(ranked, grids)
    ensures forall i, j :: 0 <= i < j < |ranked| ==> Fitness(grids[ranked[i]]) <= Fitness(grids[ranked[j]])
  {
    var keyed := Keys(population, grids);
    SortItems(keyed);
    SortKeepsKeys(keyed, grids);
    Items(SortByKey(keyed))
  }

  /** The members whose penalty is `f`, in order. */
  ghost function WithPenalty(population: seq<Schedule>, grids: map<Schedule, Grid>, f: int): seq<Schedule>
    requires Scored(population, grids)
  {
    if population == [] then []
    else (if Fitness(grids[population[0]]) == f then [population[0]] else []) + WithPenalty(population[1..], grids, f)
  }

  /** The members of correctly keyed pairs are scored. */
  lemma ItemsScored(keyed: seq<Keyed<Schedule>>, grids: map<Schedule, Grid>)
    requires KeyedBy(keyed, grids)
    ensures Scored(Items(keyed), grids)
  {
    var items := Items(keyed);
    forall s | s in items ensures s in grids && EveryClassTeaches(grids[s]) {
      var i :| 0 <= i < |items| && items[i] == s;
    }
  }

  /** Filtering pairs by key filters their members by penalty. */
  lemma {:induction false} KeyFilterItems(keyed: seq<Keyed<Schedule>>, grids: map<Schedule, Grid>, f: int)
    requires KeyedBy(keyed, grids)
    ensures Scored(Items(keyed), grids)
    ensures Items(KeyFilter(keyed, f)) == WithPenalty(Items(keyed), grids, f)
    decreases |keyed|
  {
    ItemsScored(keyed, grids);
    if keyed != [] {
      var rest := keyed[1..];
      assert KeyedBy(rest, grids) by {
        forall k | 0 <= k < |rest| ensures rest[k] == keyed[k + 1] { }
      }
      KeyFilterItems(rest, grids, f);
      var items := Items(keyed);
      assert items[1..] == Items(rest);
      assert WithPenalty(items, grids, f)
        == (if Fitness(grids[keyed[0].item]) == f then [keyed[0].item] else []) + WithPenalty(Items(rest), grids, f);
      var head := if keyed[0].key == f then [keyed[0]] else [];
      ItemsAppend(head, KeyFilter(rest, f));
      assert Items(head) == if keyed[0].key == f then [keyed[0].item] else [];
    }
  }

  /** `sorted` is stable: the members of any one penalty keep their order. */
  lemma RankByStable(population: seq<Schedule>, grids: map<Schedule, Grid>, f: int)
    requires Scored(population, grids)
    ensures WithPenalty(RankBy(population, grids), grids, f) == WithPenalty(population, grids, f)
  {
    var keyed := Keys(population, grids);
    SortKeepsKeys(keyed, grids);
    SortStable(keyed, f);
    KeyFilterItems(keyed, grids, f);
    KeyFilterItems(SortByKey(keyed), grids, f);
  }

  // ---------------------------------------------------------------------
  // The run, generation by generation

  /** One generation of `optimize`: from the sorted population `before`
      whose objects hold `gridsBefore`, the loop breeds with `draws`, the
      objects then hold `gridsAfter`, and `after` is the bred population
      sorted by those grids' penalties. */
  ghost predicate Step(before: seq<Schedule>, gridsBefore: map<Schedule, Grid>, draws: seq<PairDraw>, eliteSize: nat,
                       cat: Catalog, after: seq<Schedule>, gridsAfter: map<Schedule, Grid>)
  {
    && Teachable(cat) && Fit(gridsBefore, cat)
    && (forall s :: s in before ==> s in gridsBefore)
    && DrawsFit(draws, cat, |Window(before)|)
    && gridsAfter == BreedGrids(gridsBefore, Window(before), draws, cat)
    && after == RankBy(Bred(before, draws, eliteSize), gridsAfter)
  }

  /** `pops[g]` is the sorted population of generation `g` and `grids[g]`
      the grids its objects hold then; each is the step from the previous
      one with that generation's draws. */
  ghost predicate Lineage(pops: seq<seq<Schedule>>, grids: seq<map<Schedule, Grid>>, draws: seq<seq<PairDraw>>,
                          eliteSize: nat, cat: Catalog)
  {
    && |pops| == |draws| + 1 && |grids| == |draws| + 1
    && forall g :: 0 <= g < |draws| ==> Step(pops[g], grids[g], draws[g], eliteSize, cat, pops[g + 1], grids[g + 1])
  }

  lemma LineageAppend(pops: seq<seq<Schedule>>, grids: seq<map<Schedule, Grid>>, draws: seq<seq<PairDraw>>,
                      eliteSize: nat, cat: Catalog, ds: seq<PairDraw>, after: seq<Schedule>, gridsAfter: map<Schedule, Grid>)
    requires Lineage(pops, grids, draws, eliteSize, cat)
    requires Step(pops[|draws|], grids[|draws|], ds, eliteSize, cat, after, gridsAfter)
    ensures Lineage(pops + [after], grids + [gridsAfter], draws + [ds], eliteSize, cat)
  {
    var pops', grids', draws' := pops + [after], grids + [gridsAfter], draws + [ds];
    forall g | 0 <= g < |draws'|
      ensures Step(pops'[g], grids'[g], draws'[g], eliteSize, cat, pops'[g + 1], grids'[g + 1])
    {
      if g < |draws| {
        assert pops'[g] == pops[g] && pops'[g + 1] == pops[g + 1] && draws'[g] == draws[g];
        assert grids'[g] == grids[g] && grids'[g + 1] == grids[g + 1];
      }
    }
  }

  /** The first member of every sorted generation has its smallest penalty. */
  lemma LineageBest(pops: seq<seq<Schedule>>, grids: seq<map<Schedule, Grid>>, draws: seq<seq<PairDraw>>,
                    eliteSize: nat, cat: Catalog, g: nat)
    requires Lineage(pops, grids, draws, eliteSize, cat) && 0 < g <= |draws| && pops[g] != []
    ensures Scored(pops[g], grids[g])
    ensures forall i :: 0 <= i < |pops[g]| ==> Fitness(grids[g][pops[g][0]]) <= Fitness(grids[g][pops[g][i]])
  {
    assert Step(pops[g - 1], grids[g - 1], draws[g - 1], eliteSize, cat, pops[g], grids[g]);
  }

  /** `tops[g - 1]`, the entry appended for generation `g`, is the penalty
      of the first member of that generation's sorted population. */
  ghost predicate Recorded(pops: seq<seq<Schedule>>, grids: seq<map<Schedule, Grid>>, tops: seq<nat>) {
    && |pops| == |tops| + 1 && |grids| == |tops| + 1
    && forall g :: 0 < g <= |tops| ==>
         pops[g] != [] && Scored(pops[g], grids[g]) && tops[g - 1] == Fitness(grids[g][pops[g][0]])
  }

  /** Recording one more sorted generation and its best penalty. */
  lemma RecordedAppend(pops: seq<seq<Schedule>>, grids: seq<map<Schedule, Grid>>, tops: seq<nat>,
                       next: seq<Schedule>, after: map<Schedule, Grid>, top: nat)
    requires Recorded(pops, grids, tops)
    requires next != [] && Scored(next, after) && top == Fitness(after[next[0]])
    ensures Recorded(pops + [next], grids + [after], tops + [top])
  {
    var pops', grids', tops' := pops + [next], grids + [after], tops + [top];
    forall g | 0 < g <= |tops'|
      ensures pops'[g] != [] && Scored(pops'[g], grids'[g]) && tops'[g - 1] == Fitness(grids'[g][pops'[g][0]])
    {
      if g <= |tops| {
        assert pops'[g] == pops[g] && grids'[g] == grids[g] && tops'[g - 1] == tops[g - 1];
      }
    }
  }

  /** The record of a run from the sorted first population `first` whose
      objects held `grids`, after the generations drawn with `done`. */
  ghost predicate History(first: seq<Schedule>, grids: map<Schedule, Grid>, done: seq<seq<PairDraw>>, eliteSize: nat,
                          cat: Catalog, pops: seq<seq<Schedule>>, gridsSeq: seq<map<Schedule, Grid>>, tops: seq<nat>)
  {
    && Lineage(pops, gridsSeq, done, eliteSize, cat) && Recorded(pops, gridsSeq, tops)
    && pops[0] == first && gridsSeq[0] == grids && Fit(gridsSeq[|done|], cat)
  }

  /** One more generation extends the record. */
  lemma HistoryAppend(first: seq<Schedule>, grids: map<Schedule, Grid>, done: seq<seq<PairDraw>>, eliteSize: nat,
                      cat: Catalog, pops: seq<seq<Schedule>>, gridsSeq: seq<map<Schedule, Grid>>, tops: seq<nat>,
                      ds: seq<PairDraw>, next: seq<Schedule>, after: map<Schedule, Grid>, top: nat)
    requires History(first, grids, done, eliteSize, cat, pops, gridsSeq, tops)
    requires Step(pops[|done|], gridsSeq[|done|], ds, eliteSize, cat, next, after)
    requires next != [] && top == Fitness(after[next[0]])
    ensures History(first, grids, done + [ds], eliteSize, cat, pops + [next], gridsSeq + [after], tops + [top])
  {
    LineageAppend(pops, gridsSeq, done, eliteSize, cat, ds, next, after);
    RecordedAppend(pops, gridsSeq, tops, next, after, top);
  }

  /** The draws of the first `n + 1` generations. */
  lemma DrawsPrefix(draws: seq<seq<PairDraw>>, n: nat)
    requires n < |draws|
    ensures draws[..n] + [draws[n]] == draws[..n + 1]
  {
  }

  /** The grids of a first population are fit. */
  lemma FoundedFit(initial: seq<Schedule>, grids: map<Schedule, Grid>, cat: Catalog, pick: (nat, nat, nat, nat) -> Pick)
    requires Teachable(cat) && Founded(initial, grids, cat, pick)
    ensures Fit(grids, cat)
  {
    forall s | s in grids
      ensures Shaped(grids[s], cat.classes, cat.days, cat.lessons) && EveryClassTeaches(grids[s])
    {
      var i :| 0 <= i < |initial| && initial[i] == s;
      ShapedClassesTeach(grids[s], cat);
    }
  }

  /** The record `optimize` leaves: `initial` is the first population drawn
      with `pick`, `pops[0]` is it sorted by the grids `gridsSeq[0]` it was
      drawn with, each later generation is the step from the one before, and
      `tops` holds each generation's best penalty. */
  ghost predicate Optimized(initial: seq<Schedule>, pick: (nat, nat, nat, nat) -> Pick, draws: seq<seq<PairDraw>>,
                            eliteSize: nat, cat: Catalog, pops: seq<seq<Schedule>>, gridsSeq: seq<map<Schedule, Grid>>,
                            tops: seq<nat>)
  {
    && Lineage(pops, gridsSeq, draws, eliteSize, cat)
    && Founded(initial, gridsSeq[0], cat, pick) && Fit(gridsSeq[0], cat)
    && pops[0] == RankBy(initial, gridsSeq[0])
    && Recorded(pops, gridsSeq, tops)
  }

  /** A run from the sorted first population is what `optimize` leaves. */
  lemma FoundedHistory(initial: seq<Schedule>, pick: (nat, nat, nat, nat) -> Pick, draws: seq<seq<PairDraw>>,
                       eliteSize: nat, cat: Catalog, pops: seq<seq<Schedule>>, gridsSeq: seq<map<Schedule, Grid>>,
                       tops: seq<nat>, grids: map<Schedule, Grid>)
    requires Founded(initial, grids, cat, pick) && Fit(grids, cat)
    requires History(RankBy(initial, grids), grids, draws, eliteSize, cat, pops, gridsSeq, tops)
    ensures Optimized(initial, pick, draws, eliteSize, cat, pops, gridsSeq, tops)
  {
  }

  /** `best`, the first member of `population`, has its smallest penalty. */
  ghost predicate BestOf(best: Schedule, population: seq<Schedule>)
    reads population
  {
    && population != [] && best == population[0] && EveryClassTeaches(best.grid)
    && forall i :: 0 <= i < |population| ==>
         EveryClassTeaches(population[i].grid) && Fitness(best.grid) <= Fitness(population[i].grid)
  }

  /** A member of a population built from catalog `cat`. */
  ghost predicate Member(s: Schedule, cat: Catalog)
    reads s
  {
    s.Valid() && s.Vocabulary() == cat && EveryClassTeaches(s.grid)
  }

  /** `population` is drawn from `pool`, every object of `pool` is a member
      over `cat`, and the population is in ascending order of penalty. */
  ghost predicate Ranked(population: seq<Schedule>, pool: set<Schedule>, cat: Catalog)
    reads pool
  {
    && (forall i :: 0 <= i < |population| ==> population[i] in pool)
    && (forall s :: s in pool ==> Member(s, cat))
    && (forall i, j :: 0 <= i < j < |population| ==> Fitness(population[i].grid) <= Fitness(population[j].grid))
  }

  /** The first member of a ranked population has the smallest penalty. */
  lemma RankedBest(population: seq<Schedule>, pool: set<Schedule>, cat: Catalog)
    requires Ranked(population, pool, cat) && population != []
    ensures BestOf(population[0], population)
  {
    forall i | 0 <= i < |population| ensures EveryClassTeaches(population[i].grid) {
      assert population[i] in pool;
    }
  }

  /** The picks of every cell of every member of a first population. */
  ghost predicate PopulationPicksFit(cat: Catalog, pick: (nat, nat, nat, nat) -> Pick, size: nat) {
    forall m: nat :: m < size ==> PicksFit(cat, MemberPicks(pick, m))
  }

  function MemberPicks(pick: (nat, nat, nat, nat) -> Pick, m: nat): (nat, nat, nat) -> Pick {
    (c: nat, d: nat, l: nat) => pick(m, c, d, l)
  }

  /** The first population is made of distinct objects, and `grids`
      records, for member `i`, the random grid drawn with member `i`'s
      picks. */
  ghost predicate Founded(initial: seq<Schedule>, grids: map<Schedule, Grid>, cat: Catalog, pick: (nat, nat, nat, nat) -> Pick) {
    && grids.Keys == (set s | s in initial)
    && (forall i, j :: 0 <= i < j < |initial| ==> initial[i] != initial[j])
    && forall i :: 0 <= i < |initial| ==>
         PicksFit(cat, MemberPicks(pick, i)) && grids[initial[i]] == InitializeSchedule(cat, MemberPicks(pick, i))
  }

  class GeneticAlgorithm {
    const populationSize: nat
    const generations: nat
    const eliteSize: nat
    /** The best penalty of every generation run so far. */
    var fitnessOverTime: seq<nat>

    constructor (populationSize: nat, generations: nat, eliteSize: nat)
      ensures this.populationSize == populationSize && this.generations == generations
      ensures this.eliteSize == eliteSize && fitnessOverTime == []
    {
      this.populationSize := populationSize;
      this.generations := generations;
      this.eliteSize := eliteSize;
      fitnessOverTime := [];
    }

    /** `populationSize` fresh random schedules over `base`'s catalog. */
    method InitializePopulation(base: Schedule, pick: (nat, nat, nat, nat) -> Pick) returns (population: seq<Schedule>)
      requires PopulationPicksFit(base.Vocabulary(), pick, populationSize)
      ensures |population| == populationSize
      ensures forall i, j :: 0 <= i < j < |population| ==> population[i] != population[j]
      ensures forall i :: 0 <= i < |population| ==>
        && fresh(population[i]) && population[i].Valid() && population[i].Vocabulary() == base.Vocabulary()
        && population[i].grid == InitializeSchedule(base.Vocabulary(), MemberPicks(pick, i))
    {
      population := [];
      for m := 0 to populationSize
        invariant |population| == m
        invariant forall i, j :: 0 <= i < j < m ==> population[i] != population[j]
        invariant forall i :: 0 <= i < m ==>
          && fresh(population[i]) && population[i].Valid() && population[i].Vocabulary() == base.Vocabulary()
          && population[i].grid == InitializeSchedule(base.Vocabulary(), MemberPicks(pick, i))
      {
        var s := new Schedule(base.classes, base.teachers, base.subjects, base.rooms,
                              base.days, base.lessons, MemberPicks(pick, m));
        population := population + [s];
      }
    }

    /** `mutate`: on a successful coin, overwrite the drawn cell in place. */
    method Mutate(s: Schedule, m: MutationDraw) returns (r: Schedule)
      requires s.Valid() && MutationDrawFits(m, s.Vocabulary())
      modifies s
      ensures r == s && s.Valid()
      ensures s.grid == MutatedGrid(old(s.grid), m)
    {
      MutationTouchesOneCell(s.grid, m, s.Vocabulary());
      if m.fire {
        var room := MutationRoom(m.subject, m.room);
        s.grid := SetCell(s.grid, m.classIndex, m.day, m.slot, Lesson(m.subject, m.teacher, room));
      }
      r := s;
    }

    /** `crossover`: on a successful coin, replace both parents' grids by
        the two children and return the parents themselves. */
    method Crossover(parent1: Schedule, parent2: Schedule, x: CrossoverDraw) returns (child1: Schedule, child2: Schedule)
      requires CrossoverDrawFits(x, parent1.classes)
      modifies parent1, parent2
      ensures child1 == parent1 && child2 == parent2
      ensures parent1.grid == Crossed(old(parent1.grid), old(parent2.grid), x).0
      ensures parent2.grid == Crossed(old(parent1.grid), old(parent2.grid), x).1
      ensures old(parent1.Valid() && parent2.Valid()) && parent1.Vocabulary() == parent2.Vocabulary() ==>
        parent1.Valid() && parent2.Valid()
    {
      if x.fire {
        CrossoverWithItself(parent1.grid, x);
        var k1, k2 := Min(x.point, |parent1.grid|), Min(x.point, |parent2.grid|);
        var grid1 := parent1.grid[..k1] + parent2.grid[k2..];
        var grid2 := parent2.grid[..k2] + parent1.grid[k1..];
        if parent1.Valid() && parent2.Valid() && parent1.Vocabulary() == parent2.Vocabulary() {
          CrossoverKeepsShape(parent1.grid, parent2.grid, x, parent1.Vocabulary());
        }
        parent1.grid, parent2.grid := grid1, grid2;
      }
      child1, child2 := parent1, parent2;
    }

    /** `post_process`: computes, lesson by lesson, a room compatible with
        the subject, and drops it. The schedule is returned as it was. */
    method PostProcess(s: Schedule) returns (r: Schedule)
      ensures r == s && r.grid == old(s.grid)
    {
      for c := 0 to |s.grid| {
        var classSchedule := s.grid[c];
        for d := 0 to |classSchedule| {
          var subjects, rooms := Subjects(classSchedule[d]), Rooms(classSchedule[d]);
          for i := 0 to |subjects| {
            var room := RepairCandidates(subjects[i], rooms[i]);
          }
        }
      }
      r := s;
    }

    /** The `(penalty, member)` pairs `sorted` orders, in population order. */
    method KeyByFitness(population: seq<Schedule>, ghost grids: map<Schedule, Grid>) returns (keyed: seq<Keyed<Schedule>>)
      requires forall s :: s in population ==> s in grids && s.grid == grids[s] && EveryClassTeaches(s.grid)
      ensures keyed == Keys(population, grids)
    {
      keyed := [];
      for i := 0 to |population|
        invariant |keyed| == i
        invariant forall k :: 0 <= k < i ==> keyed[k] == Keyed(Fitness(population[k].grid), population[k])
      {
        keyed := keyed + [Keyed(Fitness(population[i].grid), population[i])];
      }
    }

    /** `sorted(population, key=self.fitness)`: the same members, in
        ascending order of penalty, members of equal penalty in population
        order. */
    method SortPopulation(population: seq<Schedule>, ghost grids: map<Schedule, Grid>) returns (sorted: seq<Schedule>)
      requires forall s :: s in population ==> s in grids && s.grid == grids[s] && EveryClassTeaches(s.grid)
      ensures sorted == RankBy(population, grids)
      ensures multiset(sorted) == multiset(population)
      ensures |sorted| == |population|
      ensures forall s :: s in sorted ==> s in population
      ensures forall i, j :: 0 <= i < j < |sorted| ==> Fitness(sorted[i].grid) <= Fitness(sorted[j].grid)
    {
      var keyed := KeyByFitness(population, grids);
      sorted := Items(SortByKey(keyed));
      assert sorted == RankBy(population, grids);
      assert |sorted| == |population| by {
        assert |sorted| == |multiset(sorted)| == |multiset(population)| == |population|;
      }
      forall s | s in sorted ensures s in population && s.grid == grids[s] {
        assert s in multiset(sorted);
      }
    }

    /** One iteration of the breeding loop after the parents are sampled:
        crossover, then mutation and repair of each child in turn. The
        children are the parents themselves. */
    method BreedPair(window: seq<Schedule>, d: PairDraw, ghost pool: set<Schedule>, ghost cat: Catalog,
                     ghost grids: map<Schedule, Grid>)
      returns (child1: Schedule, child2: Schedule)
      requires Teachable(cat) && Fit(grids, cat) && GridsAre(pool, grids)
      requires forall s :: s in window ==> s in pool
      requires forall s :: s in pool ==> s.Vocabulary() == cat
      requires PairDrawFits(d, cat, |window|)
      modifies pool
      ensures child1 == window[d.first] && child2 == window[d.second]
      ensures GridsAre(pool, BreedStep(grids, window, d, cat))
    {
      var parent1, parent2 := window[d.first], window[d.second];
      ghost var crossed := CrossIn(grids, parent1, parent2, d.crossover, cat);
      PoolValid(pool, grids, cat);
      child1, child2 := Crossover(parent1, parent2, d.crossover);
      forall s | s in pool ensures s.grid == crossed[s] {
        if s != parent1 && s != parent2 {
          assert s.grid == old(s.grid);
        }
      }
      PoolValid(pool, crossed, cat);
      ghost var mutated := MutateIn(crossed, parent1, d.mutation1, cat);
      var mutated1 := Mutate(child1, d.mutation1);
      forall s | s in pool ensures s.grid == mutated[s] {
        if s != parent1 {
          assert s.grid == crossed[s];
        }
      }
      PoolValid(pool, mutated, cat);
      child1 := PostProcess(mutated1);
      ghost var bred := MutateIn(mutated, parent2, d.mutation2, cat);
      var mutated2 := Mutate(child2, d.mutation2);
      forall s | s in pool ensures s.grid == bred[s] {
        if s != parent2 {
          assert s.grid == mutated[s];
        }
      }
      child2 := PostProcess(mutated2);
    }

    /** One generation's breeding loop: the elite prefix (the same objects),
        then two children per iteration, each child being a sampled parent
        after crossover, mutation and repair. */
    method Breed(population: seq<Schedule>, draws: seq<PairDraw>, ghost pool: set<Schedule>, ghost cat: Catalog,
                 ghost grids: map<Schedule, Grid>)
      returns (next: seq<Schedule>)
      requires Teachable(cat) && Fit(grids, cat) && GridsAre(pool, grids)
      requires forall s :: s in population ==> s in pool
      requires forall s :: s in pool ==> s.Vocabulary() == cat
      requires populationSize <= |population| && (eliteSize >= populationSize ==> |population| == populationSize)
      requires |draws| == PairsPerGeneration(populationSize, eliteSize)
      requires DrawsFit(draws, cat, |Window(population)|)
      modifies pool
      ensures next == Bred(population, draws, eliteSize)
      ensures |next| == GenerationSize(populationSize, eliteSize)
      ensures GridsAre(pool, BreedGrids(grids, Window(population), draws, cat))
    {
      var start := Min(eliteSize, |population|);
      var window := population[..Min(|population|, 50)];
      assert window == Window(population);
      next := population[..start];
      var k := 0;
      assert draws[..k] == [];
      while |next| < populationSize
        invariant 0 <= k <= |draws|
        invariant DrawsWithin(draws[..k], |window|) && DrawsFit(draws[..k], cat, |window|)
        invariant next == population[..start] + Offspring(window, draws[..k])
        invariant |next| == start + 2 * k
        invariant GridsAre(pool, BreedGrids(grids, window, draws[..k], cat))
        decreases populationSize - |next|
      {
        var d := draws[k];
        BreedGridsStep(grids, window, draws, cat, k);
        OffspringStep(window, draws, k);
        var child1, child2 := BreedPair(window, d, pool, cat, BreedGrids(grids, window, draws[..k], cat));
        AppendAssociates(population[..start], Offspring(window, draws[..k]), [child1, child2]);
        next := next + [child1, child2];
        k := k + 1;
      }
      assert k == |draws|;
      assert draws[..k] == draws;
    }

    /** The first population, sorted, and the set of its objects: the only
        `Schedule` objects the run ever changes. */
    method FirstGeneration(base: Schedule, pick: (nat, nat, nat, nat) -> Pick)
      returns (population: seq<Schedule>, ghost pool: set<Schedule>, ghost initial: seq<Schedule>,
               ghost grids: map<Schedule, Grid>)
      requires Teachable(base.Vocabulary())
      requires PopulationPicksFit(base.Vocabulary(), pick, populationSize)
      ensures |population| == populationSize && |initial| == populationSize
      ensures pool == (set s | s in initial) && forall s :: s in pool ==> fresh(s)
      ensures Founded(initial, grids, base.Vocabulary(), pick)
      ensures Fit(grids, base.Vocabulary()) && GridsAre(pool, grids)
      ensures population == RankBy(initial, grids)
      ensures Ranked(population, pool, base.Vocabulary())
    {
      var cat := base.Vocabulary();
      var created := InitializePopulation(base, pick);
      initial := created;
      pool := set s | s in created;
      grids := map s | s in pool :: s.grid;
      forall s | s in pool ensures fresh(s) && s.Vocabulary() == cat {
        var i :| 0 <= i < |created| && created[i] == s;
      }
      assert Founded(initial, grids, cat, pick) by {
        forall i | 0 <= i < |initial|
          ensures PicksFit(cat, MemberPicks(pick, i)) && grids[initial[i]] == InitializeSchedule(cat, MemberPicks(pick, i))
        {
          assert initial[i] in pool;
        }
      }
      FoundedFit(initial, grids, cat, pick);
      PoolMembers(pool, grids, cat, created);
      population := SortPopulation(created, grids);
      RankedByGrids(population, pool, grids, cat);
    }

    /** The body of one pass of the generation loop before the bookkeeping:
        breed the next population from the sorted one and sort it by the
        penalties its objects then hold. */
    method NextGeneration(population: seq<Schedule>, draws: seq<PairDraw>, ghost pool: set<Schedule>, ghost cat: Catalog,
                          ghost grids: map<Schedule, Grid>)
      returns (sorted: seq<Schedule>)
      requires Teachable(cat)
      requires Fit(grids, cat) && GridsAre(pool, grids)
      requires forall s :: s in population ==> s in pool
      requires forall s :: s in pool ==> s.Vocabulary() == cat
      requires populationSize <= |population| && (eliteSize >= populationSize ==> |population| == populationSize)
      requires |draws| == PairsPerGeneration(populationSize, eliteSize)
      requires DrawsFit(draws, cat, |Window(population)|)
      modifies pool
      ensures Step(population, grids, draws, eliteSize, cat, sorted, BreedGrids(grids, Window(population), draws, cat))
      ensures GridsAre(pool, BreedGrids(grids, Window(population), draws, cat))
      ensures |sorted| == GenerationSize(populationSize, eliteSize)
      ensures forall s :: s in sorted ==> s in pool
    {
      var next := Breed(population, draws, pool, cat, grids);
      ghost var after := BreedGrids(grids, Window(population), draws, cat);
      PoolMembers(pool, after, cat, next);
      sorted := SortPopulation(next, after);
      assert Step(population, grids, draws, eliteSize, cat, sorted, after);
    }

    /** `fitness_over_time.append`: records one generation's best penalty;
        the schedules are left as they are. */
    method RecordBest(top: nat, ghost pool: set<Schedule>, ghost grids: map<Schedule, Grid>,
                      ghost population: seq<Schedule>, ghost cat: Catalog)
      requires Settled(pool, grids, population, cat)
      modifies this
      ensures fitnessOverTime == old(fitnessOverTime) + [top]
      ensures Settled(pool, grids, population, cat)
    {
      fitnessOverTime := fitnessOverTime + [top];
      forall i | 0 <= i < |population| ensures EveryClassTeaches(population[i].grid) {
        assert population[i] in pool;
      }
    }

    /** One pass of the generation loop: breed the next population, sort
        it and append the first member's penalty to `fitnessOverTime`. */
    method Generation(population: seq<Schedule>, draws: seq<PairDraw>, ghost pool: set<Schedule>, ghost cat: Catalog,
                      ghost grids: map<Schedule, Grid>)
      returns (sorted: seq<Schedule>)
      requires populationSize >= 1 && Teachable(cat)
      requires Fit(grids, cat) && GridsAre(pool, grids)
      requires forall s :: s in population ==> s in pool
      requires forall s :: s in pool ==> Member(s, cat)
      requires populationSize <= |population| && (eliteSize >= populationSize ==> |population| == populationSize)
      requires |draws| == PairsPerGeneration(populationSize, eliteSize)
      requires DrawsFit(draws, cat, |Window(population)|)
      modifies this, pool
      ensures Step(population, grids, draws, eliteSize, cat, sorted, BreedGrids(grids, Window(population), draws, cat))
      ensures GridsAre(pool, BreedGrids(grids, Window(population), draws, cat))
      ensures |sorted| == GenerationSize(populationSize, eliteSize)
      ensures Ranked(sorted, pool, cat)
      ensures forall i :: 0 <= i < |sorted| ==> EveryClassTeaches(sorted[i].grid)
      ensures fitnessOverTime == old(fitnessOverTime) + [Fitness(sorted[0].grid)]
    {
      sorted := NextGeneration(population, draws, pool, cat, grids);
      ghost var after := BreedGrids(grids, Window(population), draws, cat);
      RankedByGrids(sorted, pool, after, cat);
      RecordBest(Fitness(sorted[0].grid), pool, after, sorted, cat);
    }

    /** The state of `optimize` after the generations drawn with `done`,
        from the sorted first population `first` whose objects held `grids`:
        `pops` and `gridsSeq` record every sorted generation and the grids
        its objects held then, `tops` the penalties appended to
        `fitnessOverTime` since it was `before`, and `population`, the last
        generation, is ranked over the pool. */
    ghost predicate Ran(first: seq<Schedule>, grids: map<Schedule, Grid>, done: seq<seq<PairDraw>>, pool: set<Schedule>,
                        cat: Catalog, before: seq<nat>, population: seq<Schedule>, pops: seq<seq<Schedule>>,
                        gridsSeq: seq<map<Schedule, Grid>>, tops: seq<nat>)
      reads this, pool
    {
      && History(first, grids, done, eliteSize, cat, pops, gridsSeq, tops)
      && population == pops[|done|] && GridsAre(pool, gridsSeq[|done|])
      && population != [] && Ranked(population, pool, cat)
      && |population| == (if done == [] then populationSize else GenerationSize(populationSize, eliteSize))
      && fitnessOverTime == before + tops
    }

    /** One pass of the generation loop together with the record of the
        run: the pass extends every record by one generation. */
    method Advance(ghost first: seq<Schedule>, ghost grids: map<Schedule, Grid>, ghost done: seq<seq<PairDraw>>,
                   ds: seq<PairDraw>, ghost pool: set<Schedule>, ghost cat: Catalog, ghost before: seq<nat>,
                   population: seq<Schedule>, ghost pops: seq<seq<Schedule>>, ghost gridsSeq: seq<map<Schedule, Grid>>,
                   ghost tops: seq<nat>)
      returns (next: seq<Schedule>, ghost pops': seq<seq<Schedule>>, ghost gridsSeq': seq<map<Schedule, Grid>>,
               ghost tops': seq<nat>)
      requires populationSize >= 1 && Teachable(cat)
      requires Ran(first, grids, done, pool, cat, before, population, pops, gridsSeq, tops)
      requires |ds| == PairsPerGeneration(populationSize, eliteSize)
      requires DrawsFit(ds, cat, Min(|population|, 50))
      modifies this, pool
      ensures Ran(first, grids, done + [ds], pool, cat, before, next, pops', gridsSeq', tops')
    {
      ghost var last := gridsSeq[|done|];
      next := Generation(population, ds, pool, cat, last);
      ghost var after := BreedGrids(last, Window(population), ds, cat);
      assert next[0] in pool;
      HistoryAppend(first, grids, done, eliteSize, cat, pops, gridsSeq, tops, ds, next, after, Fitness(next[0].grid));
      AppendAssociates(before, tops, [Fitness(next[0].grid)]);
      pops', gridsSeq', tops' := pops + [next], gridsSeq + [after], tops + [Fitness(next[0].grid)];
    }

    /** The generation loop of `optimize`, from the sorted first population:
        each pass breeds and sorts the next population and appends its best
        penalty to `fitnessOverTime`. `pops` and `gridsSeq` record every
        sorted generation and the grids its objects held when it was sorted,
        `tops` the penalties appended. */
    method RunGenerations(first: seq<Schedule>, draws: seq<seq<PairDraw>>, ghost pool: set<Schedule>, ghost cat: Catalog,
                          ghost grids: map<Schedule, Grid>)
      returns (population: seq<Schedule>, ghost pops: seq<seq<Schedule>>, ghost gridsSeq: seq<map<Schedule, Grid>>,
               ghost tops: seq<nat>)
      requires populationSize >= 1 && Teachable(cat)
      requires |first| == populationSize && Ranked(first, pool, cat)
      requires Fit(grids, cat) && GridsAre(pool, grids)
      requires |draws| == generations
      requires forall g :: 0 <= g < |draws| ==> |draws[g]| == PairsPerGeneration(populationSize, eliteSize)
      requires forall g :: 0 <= g < |draws| ==>
        DrawsFit(draws[g], cat, Min(if g == 0 then populationSize else GenerationSize(populationSize, eliteSize), 50))
      modifies this, pool
      ensures History(first, grids, draws, eliteSize, cat, pops, gridsSeq, tops)
      ensures population == pops[generations] && GridsAre(pool, gridsSeq[generations])
      ensures Ranked(population, pool, cat)
      ensures |population| == if generations == 0 then populationSize else GenerationSize(populationSize, eliteSize)
      ensures fitnessOverTime == old(fitnessOverTime) + tops
      ensures generations > 0 ==> fitnessOverTime[|fitnessOverTime| - 1] == Fitness(population[0].grid)
    {
      population := first;
      pops, gridsSeq, tops := [first], [grids], [];
      assert draws[..0] == [];
      for gen := 0 to generations
        invariant Ran(first, grids, draws[..gen], pool, cat, old(fitnessOverTime), population, pops, gridsSeq, tops)
      {
        DrawsPrefix(draws, gen);
        population, pops, gridsSeq, tops :=
          Advance(first, grids, draws[..gen], draws[gen], pool, cat, old(fitnessOverTime), population, pops, gridsSeq, tops);
      }
      assert draws[..generations] == draws;
      if generations > 0 {
        assert population[0] in pool && tops[generations - 1] == fitnessOverTime[|fitnessOverTime| - 1];
      }
    }

    /** `optimize`: build and sort a first population, run `generations`
        generations, append each generation's best penalty to
        `fitnessOverTime`, and return the best member of the last one.
        `initial` is the population `initialize_population` returns; `pops`
        and `gridsSeq` record every sorted generation and the grids its
        objects held when it was sorted (later generations may change
        those objects). */
    method Optimize(base: Schedule, pick: (nat, nat, nat, nat) -> Pick, draws: seq<seq<PairDraw>>)
      returns (best: Schedule, ghost initial: seq<Schedule>, ghost pops: seq<seq<Schedule>>,
               ghost gridsSeq: seq<map<Schedule, Grid>>, ghost tops: seq<nat>)
      requires populationSize >= 1
      requires Teachable(base.Vocabulary())
      requires PopulationPicksFit(base.Vocabulary(), pick, populationSize)
      requires |draws| == generations
      requires forall g :: 0 <= g < |draws| ==> |draws[g]| == PairsPerGeneration(populationSize, eliteSize)
      requires forall g :: 0 <= g < |draws| ==>
        DrawsFit(draws[g], base.Vocabulary(), Min(if g == 0 then populationSize else GenerationSize(populationSize, eliteSize), 50))
      modifies this
      ensures |initial| == populationSize
      ensures fitnessOverTime == old(fitnessOverTime) + tops
      ensures Optimized(initial, pick, draws, eliteSize, base.Vocabulary(), pops, gridsSeq, tops)
      ensures GridsAre((set s | s in initial), gridsSeq[generations])
      ensures BestOf(best, pops[generations])
      ensures generations > 0 ==> fitnessOverTime[|fitnessOverTime| - 1] == Fitness(best.grid)
    {
      var cat := base.Vocabulary();
      var population;
      ghost var pool, grids;
      population, pool, initial, grids := FirstGeneration(base, pick);
      population, pops, gridsSeq, tops := RunGenerations(population, draws, pool, cat, grids);
      RankedBest(population, pool, cat);
      FoundedHistory(initial, pick, draws, eliteSize, cat, pops, gridsSeq, tops, grids);
      best := population[0];
    }
  }
}
