/** SpeedLimit: a bit-string genetic algorithm whose fitness is the fraction of set bits. Each
    generation breeds children by crossover and asymmetric mutation, replaces the parents with
    them, sorts by fitness, highest first, and keeps the best `populationSize`. Every
    `Math.random()` and `nextInt` draw is a parameter. */
module SpeedLimit {
  import opened JavaLang

  const GenomeLength: nat := 500
  const PopulationSize: nat := 5000
  const Generations: nat := 1000
  const ChildrenPerFamily: nat := 8
  const CrossoverRate: real := 0.01
  const OneToZeroMutationRate: real := 0.01
  const ZeroToOneMutationRate: real := 0.00001
  /** The probability that a bit of an initial genome is set. */
  const InitialFitnessProbability: real := 0.01

  /** Children bred per generation, `populationSize * childrenPerFamily / 2`. */
  function ChildCount(): (n: nat)
    ensures n == 20000 && n >= PopulationSize
  {
    PopulationSize * ChildrenPerFamily / 2
  }

  /** The number of set bits. */
  function Ones(bits: seq<bool>): (n: nat)
    ensures n <= |bits|
    decreases |bits|
  {
    if |bits| == 0 then 0 else Ones(bits[..|bits| - 1]) + if bits[|bits| - 1] then 1 else 0
  }

  /** The fitness: set bits over length, in [0, 1]. */
  function FitnessOf(bits: seq<bool>): (f: real)
    requires |bits| > 0
    ensures 0.0 <= f <= 1.0
    ensures f == 1.0 <==> Ones(bits) == |bits|
    ensures f == 0.0 <==> Ones(bits) == 0
  {
    Ones(bits) as real / |bits| as real
  }

  /** One bit under mutation with draw d: a set bit clears when d < oneToZero, a clear bit
      sets when d < zeroToOne, anything else stays. */
  function FlipBit(b: bool, d: real, oneToZero: real, zeroToOne: real): bool
  {
    if b then !(d < oneToZero) else d < zeroToOne
  }

  function Flipped(bits: seq<bool>, draws: seq<real>, oneToZero: real, zeroToOne: real): (r: seq<bool>)
    requires |draws| == |bits|
    ensures |r| == |bits|
    ensures forall i | 0 <= i < |bits| :: r[i] == FlipBit(bits[i], draws[i], oneToZero, zeroToOne)
  {
    seq(|bits|, i requires 0 <= i < |bits| => FlipBit(bits[i], draws[i], oneToZero, zeroToOne))
  }

  /** A bit can only change through a draw below its own rate: no draw below either rate
      leaves the genome as it was. */
  lemma FlippedUnchanged(bits: seq<bool>, draws: seq<real>, oneToZero: real, zeroToOne: real)
    requires |draws| == |bits|
    requires forall i | 0 <= i < |bits| :: (bits[i] ==> draws[i] >= oneToZero) && (!bits[i] ==> draws[i] >= zeroToOne)
    ensures Flipped(bits, draws, oneToZero, zeroToOne) == bits
  {
  }

  /** With no chance of setting a bit, mutation never raises the count of set bits. */
  lemma {:induction false} FlippedNeverGains(bits: seq<bool>, draws: seq<real>, oneToZero: real, zeroToOne: real)
    requires |draws| == |bits| && zeroToOne <= 0.0
    requires forall i | 0 <= i < |draws| :: 0.0 <= draws[i]
    ensures Ones(Flipped(bits, draws, oneToZero, zeroToOne)) <= Ones(bits)
    decreases |bits|
  {
    if |bits| > 0 {
      var n := |bits| - 1;
      var r := Flipped(bits, draws, oneToZero, zeroToOne);
      FlippedNeverGains(bits[..n], draws[..n], oneToZero, zeroToOne);
      assert r[..n] == Flipped(bits[..n], draws[..n], oneToZero, zeroToOne);
    }
  }

  /** Which parent the crossover copies bit i from: the first draw picks A when below 0.5,
      and each switch draw below the rate swaps parents after its bit. */
  function OnA(start: real, switches: seq<real>, rate: real, i: nat): bool
    requires i <= |switches|
  {
    if i == 0 then start < 0.5
    else if switches[i - 1] < rate then !OnA(start, switches, rate, i - 1)
    else OnA(start, switches, rate, i - 1)
  }

  /** Past gB's end the crossover stays on gA. */
  predicate StaysOnA(a: seq<bool>, b: seq<bool>, start: real, switches: seq<real>, rate: real)
    requires |switches| == |a|
  {
    forall i | |b| <= i < |a| :: OnA(start, switches, rate, i)
  }

  /** The bits of `cross(gA, gB, rate)`: gA's length, each bit from the active parent. Reading
      gB past its end throws ArrayIndexOutOfBoundsException. */
  function CrossBits(a: seq<bool>, b: seq<bool>, start: real, switches: seq<real>, rate: real): (r: Result<seq<bool>>)
    requires |switches| == |a|
    ensures r.Ok? <==> StaysOnA(a, b, start, switches, rate)
    ensures r.Ok? ==> |r.value| == |a|
    ensures r.Ok? ==> forall i | 0 <= i < |a| :: r.value[i] == if OnA(start, switches, rate, i) then a[i] else b[i]
    ensures r.Err? ==> r.error == ArrayIndexOutOfBounds
  {
    if StaysOnA(a, b, start, switches, rate) then
      Ok(seq(|a|, i requires 0 <= i < |a| && (i < |b| || OnA(start, switches, rate, i)) =>
        if OnA(start, switches, rate, i) then a[i] else b[i]))
    else Err(ArrayIndexOutOfBounds)
  }

  /** Bits taken, index by index, from the active parent (which never runs past b's end) are
      the crossed bits. */
  lemma CrossMatches(a: seq<bool>, b: seq<bool>, start: real, switches: seq<real>, rate: real, r: seq<bool>)
    requires |switches| == |a| == |r|
    requires forall m | 0 <= m < |a| :: m < |b| || OnA(start, switches, rate, m)
    requires forall m | 0 <= m < |a| :: r[m] == if OnA(start, switches, rate, m) then a[m] else b[m]
    ensures CrossBits(a, b, start, switches, rate) == Ok(r)
  {
    assert StaysOnA(a, b, start, switches, rate);
    var c := CrossBits(a, b, start, switches, rate).value;
    assert forall m | 0 <= m < |a| :: c[m] == r[m];
    assert c == r;
  }

  /** Without a switch draw below the rate the active parent never changes. */
  lemma {:induction false} OnAConstant(start: real, switches: seq<real>, rate: real, i: nat)
    requires i <= |switches| && forall m | 0 <= m < |switches| :: switches[m] >= rate
    ensures OnA(start, switches, rate, i) == (start < 0.5)
  {
    if i > 0 {
      OnAConstant(start, switches, rate, i - 1);
    }
  }

  /** Without a switch draw below the rate the child is an exact copy of one parent. */
  lemma NoSwitchCopiesParent(a: seq<bool>, b: seq<bool>, start: real, switches: seq<real>, rate: real)
    requires |switches| == |a| <= |b| && forall m | 0 <= m < |switches| :: switches[m] >= rate
    ensures CrossBits(a, b, start, switches, rate) == Ok(if start < 0.5 then a else b[..|a|])
  {
    forall i | 0 <= i <= |a| {
      OnAConstant(start, switches, rate, i);
    }
    var r := CrossBits(a, b, start, switches, rate).value;
    assert r == if start < 0.5 then a else b[..|a|];
  }

  /** The bits of `generateInitialGenome(len, probT)`: bit i is set iff its draw is below
      probT. */
  function InitialBits(probT: real, draws: seq<real>): (r: seq<bool>)
    ensures |r| == |draws| && forall i | 0 <= i < |draws| :: r[i] <==> draws[i] < probT
  {
    seq(|draws|, i requires 0 <= i < |draws| => draws[i] < probT)
  }

  class Genome {
    const bits: array<bool>
    var hasSavedFitness: bool
    var savedFitness: real

    /** The cache holds the fitness of the current bits whenever it is marked full. */
    ghost predicate CacheValid()
      reads this, bits
    {
      hasSavedFitness ==> bits.Length > 0 && savedFitness == FitnessOf(bits[..])
    }

    /** `Genome(length)`: all bits clear, nothing cached. */
    constructor (length: nat)
      ensures fresh(bits) && bits.Length == length && (forall i | 0 <= i < length :: !bits[i])
      ensures !hasSavedFitness && savedFitness == 0.0 && CacheValid()
    {
      bits := new bool[length](_ => false);
      hasSavedFitness := false;
      savedFitness := 0.0;
    }

    /** `Genome.mutate(g, oneToZero, zeroToOne)`: one draw per bit, in order. The cache is
        not touched. */
    static method Mutate(g: Genome, draws: seq<real>, oneToZero: real, zeroToOne: real)
      requires |draws| == g.bits.Length
      modifies g.bits
      ensures g.bits[..] == Flipped(old(g.bits[..]), draws, oneToZero, zeroToOne)
    {
      for i := 0 to g.bits.Length
        invariant forall m | 0 <= m < i :: g.bits[m] == FlipBit(old(g.bits[m]), draws[m], oneToZero, zeroToOne)
        invariant forall m | i <= m < g.bits.Length :: g.bits[m] == old(g.bits[m])
      {
        if g.bits[i] {
          if draws[i] < oneToZero {
            g.bits[i] := false;
          }
        } else {
          if draws[i] < zeroToOne {
            g.bits[i] := true;
          }
        }
      }
    }

    /** `Genome.cross(gA, gB, rate)`: a new genome of gA's length; `start` is the draw that
        picks the first parent and switches[i] the draw after bit i. */
    static method Cross(gA: Genome, gB: Genome, start: real, switches: seq<real>, rate: real) returns (res: Result<Genome>)
      requires |switches| == gA.bits.Length
      ensures var crossed := CrossBits(gA.bits[..], gB.bits[..], start, switches, rate);
        && (crossed.Err? ==> res == Err(crossed.error))
        && (crossed.Ok? ==>
              && res.Ok? && fresh(res.value) && fresh(res.value.bits)
              && res.value.bits[..] == crossed.value && !res.value.hasSavedFitness && res.value.CacheValid())
    {
      ghost var a := gA.bits[..];
      ghost var b := gB.bits[..];
      var len := gA.bits.Length;
      var newGenome := new Genome(len);
      var onA := start < 0.5;
      for i := 0 to len
        invariant gA.bits[..] == a && gB.bits[..] == b
        invariant onA == OnA(start, switches, rate, i)
        invariant forall m | 0 <= m < i :: m < |b| || OnA(start, switches, rate, m)
        invariant forall m | 0 <= m < i :: newGenome.bits[m] == if OnA(start, switches, rate, m) then a[m] else b[m]
        invariant !newGenome.hasSavedFitness
      {
        if onA {
          newGenome.bits[i] := gA.bits[i];
        } else {
          if i >= gB.bits.Length {
            assert !StaysOnA(a, b, start, switches, rate);
            return Err(ArrayIndexOutOfBounds);
          }
          newGenome.bits[i] := gB.bits[i];
        }
        if switches[i] < rate {
          onA := !onA;
        }
      }
      CrossMatches(a, b, start, switches, rate, newGenome.bits[..]);
      return Ok(newGenome);
    }
  }

  /** `computeFitness(g)`: the saved value when the cache is full, otherwise the count of set
      bits over the length, which is then saved. */
  method ComputeFitness(g: Genome) returns (f: real)
    requires g.bits.Length > 0
    modifies g
    ensures old(g.hasSavedFitness) ==> f == old(g.savedFitness) && g.hasSavedFitness == old(g.hasSavedFitness) && g.savedFitness == old(g.savedFitness)
    ensures !old(g.hasSavedFitness) ==> f == FitnessOf(g.bits[..]) && g.hasSavedFitness && g.savedFitness == f
    ensures old(g.CacheValid()) ==> g.CacheValid() && f == FitnessOf(g.bits[..])
  {
    if !g.hasSavedFitness {
      var count := 0;
      for i := 0 to g.bits.Length
        invariant count == Ones(g.bits[..i])
      {
        assert g.bits[..i + 1][..i] == g.bits[..i];
        if g.bits[i] {
          count := count + 1;
        }
      }
      assert g.bits[..g.bits.Length] == g.bits[..];
      g.savedFitness := count as real / (1.0 * g.bits.Length as real);
      g.hasSavedFitness := true;
    }
    return g.savedFitness;
  }

  /** Highest fitness first. */
  ghost predicate Descending(s: seq<Genome>, fit: map<Genome, real>)
    requires forall g | g in s :: g in fit
  {
    forall i, j | 0 <= i < j < |s| :: fit[s[i]] >= fit[s[j]]
  }

  /** Places x before the first genome no fitter than it, so equally fit genomes keep their
      order. */
  function InsertByFitness(x: Genome, s: seq<Genome>, fit: map<Genome, real>): (r: seq<Genome>)
    requires x in fit && forall g | g in s :: g in fit
    ensures multiset(r) == multiset(s) + multiset{x}
    ensures forall g | g in r :: g in fit
    decreases |s|
  {
    if |s| == 0 || fit[s[0]] <= fit[x] then [x] + s
    else
      assert s == [s[0]] + s[1..];
      [s[0]] + InsertByFitness(x, s[1..], fit)
  }

  /** A genome no less fit than every genome of a descending list heads a descending list. */
  lemma DescendingCons(h: Genome, t: seq<Genome>, fit: map<Genome, real>)
    requires h in fit && forall g | g in t :: g in fit
    requires Descending(t, fit) && forall g | g in t :: fit[g] <= fit[h]
    ensures Descending([h] + t, fit)
  {
    var r := [h] + t;
    forall i, j | 0 <= i < j < |r|
      ensures fit[r[i]] >= fit[r[j]]
    {
      assert r[j] == t[j - 1];
      if i > 0 {
        assert r[i] == t[i - 1];
      }
    }
  }

  /** Inserting into a descending list keeps it descending. */
  lemma {:induction false} InsertKeepsDescending(x: Genome, s: seq<Genome>, fit: map<Genome, real>)
    requires x in fit && forall g | g in s :: g in fit
    requires Descending(s, fit)
    ensures Descending(InsertByFitness(x, s, fit), fit)
    decreases |s|
  {
    if |s| == 0 || fit[s[0]] <= fit[x] {
      forall g | g in s
        ensures fit[g] <= fit[x]
      {
        var k :| 0 <= k < |s| && s[k] == g;
        assert fit[s[0]] >= fit[s[k]];
      }
      DescendingCons(x, s, fit);
    } else {
      var rest := InsertByFitness(x, s[1..], fit);
      assert Descending(s[1..], fit) by {
        forall i, j | 0 <= i < j < |s[1..]|
          ensures fit[s[1..][i]] >= fit[s[1..][j]]
        {
          assert s[1..][i] == s[i + 1] && s[1..][j] == s[j + 1];
        }
      }
      InsertKeepsDescending(x, s[1..], fit);
      forall g | g in rest
        ensures fit[g] <= fit[s[0]]
      {
        assert g in multiset(rest);
        if g != x {
          assert g in s[1..];
          var k :| 0 <= k < |s[1..]| && s[1..][k] == g;
          assert fit[s[0]] >= fit[s[k + 1]];
        }
      }
      DescendingCons(s[0], rest, fit);
    }
  }

  /** `sortByFitness(false)`: a stable sort, highest fitness first. */
  function SortByFitnessOf(s: seq<Genome>, fit: map<Genome, real>): (r: seq<Genome>)
    requires forall g | g in s :: g in fit
    ensures multiset(r) == multiset(s) && |r| == |s|
    ensures forall g | g in r :: g in fit
    ensures Descending(r, fit)
    decreases |s|
  {
    if |s| == 0 then []
    else
      assert s == [s[0]] + s[1..];
      var rest := SortByFitnessOf(s[1..], fit);
      InsertKeepsDescending(s[0], rest, fit);
      InsertByFitness(s[0], rest, fit)
  }

  /** The random choices that breed one child: the two parent indices, the start and switch
      draws of the crossover, and one mutation draw per bit. */
  datatype ChildDraws = ChildDraws(parentA: nat, parentB: nat, start: real, switches: seq<real>, flips: seq<real>)

  /** A genome of the simulation: the fixed length, and a cache that is right when full. */
  ghost predicate Member(g: Genome)
    reads g, g.bits
  {
    g.bits.Length == GenomeLength && g.CacheValid()
  }

  ghost predicate AllMembers(pop: seq<Genome>)
    reads set g | g in pop, set g | g in pop :: g.bits
  {
    forall i | 0 <= i < |pop| :: Member(pop[i])
  }

  /** Cutting a population back keeps its genomes. */
  lemma PrefixMembers(s: seq<Genome>, n: nat)
    requires n <= |s| && AllMembers(s)
    ensures AllMembers(s[..n])
  {
    forall i | 0 <= i < n
      ensures Member(s[..n][i])
    {
      assert s[..n][i] == s[i];
    }
  }

  /** Reordering a population keeps its genomes. */
  lemma PermutedMembers(s: seq<Genome>, r: seq<Genome>)
    requires multiset(r) == multiset(s) && AllMembers(s)
    ensures AllMembers(r)
  {
    forall i | 0 <= i < |r|
      ensures Member(r[i])
    {
      assert r[i] in multiset(r);
      var j :| 0 <= j < |s| && s[j] == r[i];
    }
  }

  /** The comparator's side effect: every genome's fitness is computed, and cached. */
  method ScoreAll(pop: seq<Genome>) returns (fit: map<Genome, real>)
    requires AllMembers(pop)
    modifies set g | g in pop
    ensures AllMembers(pop)
    ensures forall g | g in pop :: g in fit && fit[g] == FitnessOf(g.bits[..]) && g.hasSavedFitness
  {
    fit := map[];
    for i := 0 to |pop|
      invariant AllMembers(pop)
      invariant forall m | 0 <= m < i :: pop[m] in fit
      invariant forall g | g in fit :: g.bits.Length > 0 && fit[g] == FitnessOf(g.bits[..]) && g.hasSavedFitness
    {
      var g := pop[i];
      var f := ComputeFitness(g);
      fit := fit[g := f];
    }
    forall g | g in pop
      ensures g in fit
    {
      var m :| 0 <= m < |pop| && pop[m] == g;
    }
  }

  /** The bits of the child bred by draws d from parents with bits a and b: crossover, then
      mutation. */
  function Bred(a: seq<bool>, b: seq<bool>, d: ChildDraws): seq<bool>
    requires |a| == |b| == |d.switches| == |d.flips|
  {
    Flipped(CrossBits(a, b, d.start, d.switches, CrossoverRate).value, d.flips, OneToZeroMutationRate, ZeroToOneMutationRate)
  }

  /** Draws fit for breeding from a population of size n. */
  predicate FitDraws(draws: seq<ChildDraws>, n: nat)
  {
    && |draws| == ChildCount()
    && forall k | 0 <= k < |draws| ::
         && draws[k].parentA < n && draws[k].parentB < n
         && |draws[k].switches| == GenomeLength && |draws[k].flips| == GenomeLength
  }

  class SpeedLimit {
    var population: seq<Genome>

    ghost predicate Valid()
      reads this, set g | g in population, set g | g in population :: g.bits
    {
      AllMembers(population)
    }

    constructor ()
      ensures population == [] && Valid()
    {
      population := [];
    }

    /** `sortByFitness(false)`: evaluates (and caches) every genome's fitness and sorts the
        population by it, highest first. */
    method SortByFitness() returns (ghost fit: map<Genome, real>)
      requires Valid()
      modifies this, set g | g in population
      ensures Valid()
      ensures forall g | g in old(population) :: g in fit && fit[g] == FitnessOf(g.bits[..]) && g.hasSavedFitness
      ensures population == SortByFitnessOf(old(population), fit)
    {
      var scores := ScoreAll(population);
      fit := scores;
      var sorted := SortByFitnessOf(population, scores);
      PermutedMembers(population, sorted);
      population := sorted;
    }

    /** The breeding loop of one generation: each child crosses two parents drawn from the
        population and is then mutated. Nothing existing is written. */
    method Breed(draws: seq<ChildDraws>) returns (offspring: seq<Genome>)
      requires Valid() && FitDraws(draws, |population|)
      ensures |offspring| == ChildCount()
      ensures forall k | 0 <= k < |offspring| :: fresh(offspring[k]) && fresh(offspring[k].bits)
      ensures AllMembers(offspring)
      ensures forall k | 0 <= k < |offspring| ::
        offspring[k].bits[..] == Bred(population[draws[k].parentA].bits[..], population[draws[k].parentB].bits[..], draws[k])
    {
      offspring := [];
      var count := 0;
      while count < ChildCount()
        invariant count <= ChildCount() && |offspring| == count
        invariant forall k | 0 <= k < count :: fresh(offspring[k]) && fresh(offspring[k].bits)
        invariant AllMembers(offspring)
        invariant forall k | 0 <= k < count ::
          offspring[k].bits[..] == Bred(population[draws[k].parentA].bits[..], population[draws[k].parentB].bits[..], draws[k])
      {
        var child := BreedChild(draws[count]);
        offspring := offspring + [child];
        count := count + 1;
      }
    }

    /** One child: its parents crossed, then mutated. */
    method BreedChild(d: ChildDraws) returns (child: Genome)
      requires Valid() && d.parentA < |population| && d.parentB < |population|
      requires |d.switches| == GenomeLength && |d.flips| == GenomeLength
      ensures fresh(child) && fresh(child.bits) && Member(child)
      ensures child.bits[..] == Bred(population[d.parentA].bits[..], population[d.parentB].bits[..], d)
    {
      var parentA := population[d.parentA];
      var parentB := population[d.parentB];
      var crossed := Genome.Cross(parentA, parentB, d.start, d.switches, CrossoverRate);
      child := crossed.value;
      Genome.Mutate(child, d.flips, OneToZeroMutationRate, ZeroToOneMutationRate);
    }

    /** The selection step of a generation: sort by fitness and keep the `populationSize`
        fittest, which are at least as fit as every genome dropped. */
    method Cull()
      requires Valid() && |population| >= PopulationSize
      modifies this, set g | g in population
      ensures Valid() && |population| == PopulationSize
      ensures multiset(population) <= multiset(old(population))
      ensures FittestKept(population, old(population))
    {
      ghost var before := population;
      var fit := SortByFitness();
      var sorted := population;
      Truncate(PopulationSize);
      Survivors(sorted, population, before, fit);
    }

    /** Keeps the first n genomes of the population. */
    method Truncate(n: nat)
      requires Valid() && n <= |population|
      modifies this
      ensures Valid() && population == old(population)[..n]
    {
      PrefixMembers(population, n);
      population := population[..n];
    }

    /** One generation of `doEvolution`: the children replace the population, are sorted and
        cut back to the `populationSize` fittest. */
    method Generation(draws: seq<ChildDraws>) returns (ghost children: seq<Genome>)
      requires Valid() && FitDraws(draws, |population|)
      modifies this
      ensures Valid() && |population| == PopulationSize
      ensures |children| == ChildCount()
      ensures forall k | 0 <= k < |children| :: fresh(children[k]) && children[k].bits.Length == GenomeLength
      ensures forall k | 0 <= k < |children| ::
        children[k].bits[..] == Bred(old(population[draws[k].parentA].bits[..]), old(population[draws[k].parentB].bits[..]), draws[k])
      ensures multiset(population) <= multiset(children)
      ensures FittestKept(population, children)
    {
      var offspring := Breed(draws);
      children := offspring;
      population := offspring;
      Cull();
    }
  }

  /** Every genome kept is at least as fit as every genome of `all` that was not kept (the
      fitness is defined for the non-empty genomes, which all members are). */
  ghost predicate FittestKept(kept: seq<Genome>, all: seq<Genome>)
    reads set g | g in kept :: g.bits, set g | g in all :: g.bits
  {
    forall i, k | 0 <= i < |kept| && 0 <= k < |all| && all[k] !in kept && kept[i].bits.Length > 0 && all[k].bits.Length > 0 ::
      FitnessOf(kept[i].bits[..]) >= FitnessOf(all[k].bits[..])
  }

  /** Sorting `before` by its fitnesses and keeping the first n: the kept genomes come from
      `before`, and each is at least as fit as every genome of `before` that was dropped. */
  lemma Survivors(sorted: seq<Genome>, kept: seq<Genome>, before: seq<Genome>, fit: map<Genome, real>)
    requires |kept| <= |sorted| && kept == sorted[..|kept|] && multiset(sorted) == multiset(before)
    requires forall g | g in before :: g in fit && g.bits.Length > 0 && fit[g] == FitnessOf(g.bits[..])
    requires forall g | g in sorted :: g in fit
    requires Descending(sorted, fit)
    ensures forall g | g in sorted :: g in before
    ensures multiset(kept) <= multiset(before)
    ensures FittestKept(kept, before)
  {
    forall g | g in sorted
      ensures g in before
    {
      assert g in multiset(sorted);
    }
    var n := |kept|;
    assert sorted == kept + sorted[n..];
    forall i, k | 0 <= i < n && 0 <= k < |before| && before[k] !in kept
      ensures FitnessOf(kept[i].bits[..]) >= FitnessOf(before[k].bits[..])
    {
      assert before[k] in multiset(sorted);
      var j :| 0 <= j < |sorted| && sorted[j] == before[k];
      assert j >= n;
      assert fit[sorted[i]] >= fit[sorted[j]];
    }
  }

  /** `generateInitialGenome(len, probT)`: one draw per bit, set when below probT. */
  method GenerateInitialGenome(len: nat, probT: real, draws: seq<real>) returns (g: Genome)
    requires |draws| == len
    ensures fresh(g) && fresh(g.bits) && g.bits[..] == InitialBits(probT, draws) && !g.hasSavedFitness && g.CacheValid()
  {
    g := new Genome(len);
    for i := 0 to g.bits.Length
      invariant forall m | 0 <= m < i :: g.bits[m] == (draws[m] < probT)
      invariant !g.hasSavedFitness
    {
      g.bits[i] := draws[i] < probT;
    }
    assert g.bits[..] == InitialBits(probT, draws);
  }

  /** `doEvolution()`: `populationSize` initial genomes, then `generations` generations. */
  method DoEvolution(initialDraws: seq<seq<real>>, generationDraws: seq<seq<ChildDraws>>) returns (test: SpeedLimit)
    requires |initialDraws| == PopulationSize && forall i | 0 <= i < |initialDraws| :: |initialDraws[i]| == GenomeLength
    requires |generationDraws| == Generations
    requires forall i | 0 <= i < |generationDraws| :: FitDraws(generationDraws[i], PopulationSize)
    ensures fresh(test) && test.Valid() && |test.population| == PopulationSize
  {
    test := new SpeedLimit();
    for i := 0 to PopulationSize
      invariant fresh(test) && test.Valid() && |test.population| == i
      invariant forall g | g in test.population :: fresh(g)
    {
      var g := GenerateInitialGenome(GenomeLength, InitialFitnessProbability, initialDraws[i]);
      test.population := test.population + [g];
    }
    for i := 0 to Generations
      invariant fresh(test) && test.Valid() && |test.population| == PopulationSize
    {
      var children := test.Generation(generationDraws[i]);
    }
  }
}
