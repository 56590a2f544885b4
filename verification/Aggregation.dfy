/**
 How a cluster summarises its workers: sums, running means over global counters, and concatenations.
 */
module Aggregation {
  import opened Wrappers

  /** The resources that the root requires of every cluster and that are numbers or lists. */
  datatype Key =
    | CpuPercent | MemoryPercent | VramPercent | GpuTemp | GpuPercent
    | Vcpus | Vram | Vgpus | Memory
    | GpuDrivers | Virtualization | SupportedAddons

  const AVERAGED: set<Key> := {CpuPercent, MemoryPercent, VramPercent, GpuTemp, GpuPercent}
  const SUMMED: set<Key> := {Vcpus, Vram, Vgpus, Memory}
  const LISTED: set<Key> := {GpuDrivers, Virtualization, SupportedAddons}

  /** A list-valued resource arrives as one string or as a list of strings. */
  datatype Listing = One(text: string) | Many(items: seq<string>)

  /** An advertised CSI driver: an object with a name, a plain name, or something that has neither. */
  datatype CsiItem = Named(name: string) | Plain(name: string) | Nameless

  datatype Worker = Worker(
    numbers: map<Key, real>,
    listings: map<Key, Listing>,
    csiDrivers: Option<seq<CsiItem>>,
    architecture: Option<string>)

  datatype Summary = Summary(
    numbers: map<Key, real>,
    lists: map<Key, Option<seq<string>>>,
    csiDrivers: Option<seq<string>>,
    activeNodes: nat)

  // ---- What a summary should say ----

  function ValueOf(w: Worker, key: Key): real {
    if key in w.numbers then w.numbers[key] else 0.0
  }

  function Sum(vs: seq<real>): real {
    if vs == [] then 0.0 else Sum(vs[..|vs| - 1]) + vs[|vs| - 1]
  }

  function Values(workers: seq<Worker>, key: Key): seq<real> {
    seq(|workers|, i requires 0 <= i < |workers| => ValueOf(workers[i], key))
  }

  /** The reports that count for a mean: zero is taken for "not reported". */
  function NonZero(vs: seq<real>): seq<real> {
    if vs == [] then [] else NonZero(vs[..|vs| - 1]) + if vs[|vs| - 1] == 0.0 then [] else [vs[|vs| - 1]]
  }

  function Mean(vs: seq<real>): real {
    if vs == [] then 0.0 else Sum(vs) / |vs| as real
  }

  function Total(workers: seq<Worker>, key: Key): real {
    Sum(Values(workers, key))
  }

  function Average(workers: seq<Worker>, key: Key): real {
    Mean(NonZero(Values(workers, key)))
  }

  function ItemsOf(l: Listing): seq<string> {
    match l
    case One(text) => [text]
    case Many(items) => items
  }

  /** The concatenation of what the workers list, None if nobody lists anything. */
  function Concatenation(workers: seq<Worker>, key: Key): Option<seq<string>> {
    if workers == [] then
      None
    else
      AddListing(Concatenation(workers[..|workers| - 1], key), workers[|workers| - 1], key)
  }

  function AddListing(acc: Option<seq<string>>, w: Worker, key: Key): Option<seq<string>> {
    if key !in w.listings then acc
    else Some((if acc.Some? then acc.value else []) + ItemsOf(w.listings[key]))
  }

  /** Appends the item's name if it has one that is not there yet. */
  function AddDriver(acc: seq<string>, item: CsiItem): seq<string> {
    if item.Nameless? || item.name == "" || item.name in acc then acc else acc + [item.name]
  }

  function AddDrivers(acc: seq<string>, items: seq<CsiItem>): seq<string> {
    if items == [] then acc else AddDriver(AddDrivers(acc, items[..|items| - 1]), items[|items| - 1])
  }

  function MergedDrivers(workers: seq<Worker>): Option<seq<string>> {
    if workers == [] then
      None
    else
      var acc := MergedDrivers(workers[..|workers| - 1]);
      var w := workers[|workers| - 1];
      if w.csiDrivers.None? then acc else Some(AddDrivers(if acc.Some? then acc.value else [], w.csiDrivers.value))
  }

  function SummaryOf(workers: seq<Worker>): Summary {
    Summary(
      map key | key in AVERAGED + SUMMED :: if key in AVERAGED then Average(workers, key) else Total(workers, key),
      map key | key in LISTED :: Concatenation(workers, key),
      MergedDrivers(workers),
      |workers|)
  }

  // ---- The running mean ----

  lemma {:induction false} SumSnoc(vs: seq<real>, v: real)
    ensures Sum(vs + [v]) == Sum(vs) + v
  {
    assert (vs + [v])[..|vs|] == vs;
  }

  /** The step of the running mean gives the mean of one more value. */
  lemma {:induction false} RunningMean(vs: seq<real>, v: real)
    ensures Mean(vs + [v]) == Mean(vs) + (v - Mean(vs)) / (|vs| + 1) as real
  {
    var n := |vs| as real;
    SumSnoc(vs, v);
    if vs == [] {
      assert vs + [v] == [v];
    } else {
      StepOfMean(Sum(vs), v, n);
      assert |vs + [v]| as real == n + 1.0;
    }
  }

  lemma {:induction false} StepOfMean(s: real, v: real, n: real)
    requires n > 0.0
    ensures (s + v) / (n + 1.0) == s / n + (v - s / n) / (n + 1.0)
  {
    var m := s / n;
    assert m * n == s;
    var d := (v - m) / (n + 1.0);
    assert d * (n + 1.0) == v - m;
    assert (m + d) * (n + 1.0) == m * n + m + (v - m);
  }

  lemma {:induction false} ValuesSnoc(workers: seq<Worker>, i: nat, key: Key)
    requires i < |workers|
    ensures Values(workers[..i + 1], key) == Values(workers[..i], key) + [ValueOf(workers[i], key)]
  {
  }

  lemma {:induction false} NonZeroSnoc(vs: seq<real>, v: real)
    ensures NonZero(vs + [v]) == if v == 0.0 then NonZero(vs) else NonZero(vs) + [v]
  {
    assert (vs + [v])[..|vs|] == vs;
  }

  /** How many reports of `key` count for its mean. */
  function Counted(workers: seq<Worker>, key: Key): nat {
    |NonZero(Values(workers, key))|
  }

  /** One step of the running mean. */
  function NextMean(acc: real, v: real, n: nat): real
    requires 0 < n
  {
    acc + (v - acc) / n as real
  }

  /** The counter and the accumulator after a pass over `workers`. */
  function Pass(workers: seq<Worker>, key: Key): (nat, real) {
    if workers == [] then
      (0, 0.0)
    else
      var (n, acc) := Pass(workers[..|workers| - 1], key);
      var v := ValueOf(workers[|workers| - 1], key);
      if v == 0.0 then (n, acc) else (n + 1, NextMean(acc, v, n + 1))
  }

  lemma {:induction false} AverageSnoc(vs: seq<real>, v: real)
    ensures var old', new' := NonZero(vs), NonZero(vs + [v]);
            && |new'| == (if v == 0.0 then |old'| else |old'| + 1)
            && Mean(new') == if v == 0.0 then Mean(old') else NextMean(Mean(old'), v, |old'| + 1)
  {
    NonZeroSnoc(vs, v);
    RunningMean(NonZero(vs), v);
  }

  /** The running mean over one pass is the mean of the reports that are not zero, 0 if there are none. */
  lemma {:induction false} PassGivesMean(workers: seq<Worker>, key: Key)
    ensures Pass(workers, key) == (Counted(workers, key), Average(workers, key))
  {
    if workers != [] {
      var before := workers[..|workers| - 1];
      var v, vs := ValueOf(workers[|workers| - 1], key), Values(before, key);
      PassGivesMean(before, key);
      assert Values(workers, key) == vs + [v];
      AverageSnoc(vs, v);
    }
  }

  lemma {:induction false} TotalStep(workers: seq<Worker>, i: nat, key: Key)
    requires i < |workers|
    ensures Total(workers[..i + 1], key) == Total(workers[..i], key) + ValueOf(workers[i], key)
  {
    ValuesSnoc(workers, i, key);
    SumSnoc(Values(workers[..i], key), ValueOf(workers[i], key));
  }

  function CountOf(counters: map<Key, nat>, key: Key): nat {
    if key in counters then counters[key] else 0
  }

  /** The counter `n` and the accumulator `x` are those of `workers` for this key. */
  ghost predicate UpToDate(n: nat, x: real, workers: seq<Worker>, key: Key) {
    if key in AVERAGED then (n, x) == Pass(workers, key) else x == Total(workers, key)
  }

  ghost predicate AllUpToDate(counters: map<Key, nat>, numbers: map<Key, real>, workers: seq<Worker>) {
    && numbers.Keys == AVERAGED + SUMMED
    && forall key :: key in numbers ==> UpToDate(CountOf(counters, key), numbers[key], workers, key)
  }

  lemma {:induction false} NothingYet(counters: map<Key, nat>, numbers: map<Key, real>)
    requires forall key :: CountOf(counters, key) == 0
    requires numbers.Keys == AVERAGED + SUMMED && forall key :: key in numbers ==> numbers[key] == 0.0
    ensures AllUpToDate(counters, numbers, [])
  {
  }

  lemma {:induction false} AllDone(counters: map<Key, nat>, numbers: map<Key, real>, workers: seq<Worker>)
    requires AllUpToDate(counters, numbers, workers)
    ensures forall key :: key in AVERAGED ==> numbers[key] == Pass(workers, key).1
    ensures forall key :: key in SUMMED ==> numbers[key] == Total(workers, key)
  {
    forall key | key in SUMMED
      ensures key !in AVERAGED
    {
      KeySets(key);
    }
  }

  // ---- The aggregation loop ----

  class Aggregator {
    /** Global across calls; a key that was never averaged has no entry. */
    var counters: map<Key, nat>

    constructor ()
      ensures counters == map key | key in AVERAGED :: 0
    {
      counters := map key | key in AVERAGED :: 0;
    }

    method AverageAggregator(w: Worker, acc: real, key: Key) returns (r: real)
      modifies this
      ensures if ValueOf(w, key) == 0.0 then r == acc && counters == old(counters) else
                var n := (if key in old(counters) then old(counters)[key] else 0) + 1;
                counters == old(counters)[key := n] && r == NextMean(acc, ValueOf(w, key), n)
    {
      if key !in w.numbers || w.numbers[key] == 0.0 {
        return acc;
      }
      if key !in counters {
        counters := counters[key := 0];
      }
      counters := counters[key := counters[key] + 1];
      var n := counters[key];
      r := NextMean(acc, w.numbers[key], n);
    }

    method AddNumber(workers: seq<Worker>, i: nat, key: Key, acc: real) returns (r: real)
      requires i < |workers|
      requires UpToDate(CountOf(counters, key), acc, workers[..i], key)
      modifies this
      ensures UpToDate(CountOf(counters, key), r, workers[..i + 1], key)
      ensures forall other :: other != key ==> CountOf(counters, other) == CountOf(old(counters), other)
    {
      if key in AVERAGED {
        assert workers[..i + 1][..i] == workers[..i];
        r := AverageAggregator(workers[i], acc, key);
      } else {
        TotalStep(workers, i, key);
        r := if key in workers[i].numbers then acc + workers[i].numbers[key] else acc;
      }
    }

    /** The numbers of one more worker, key by key in any order. */
    method AddNumbers(workers: seq<Worker>, i: nat, numbers: map<Key, real>) returns (r: map<Key, real>)
      requires i < |workers|
      requires forall key :: key in numbers ==> UpToDate(CountOf(counters, key), numbers[key], workers[..i], key)
      modifies this
      ensures r.Keys == numbers.Keys
      ensures forall key :: key in r ==> UpToDate(CountOf(counters, key), r[key], workers[..i + 1], key)
    {
      r := numbers;
      var todo := numbers.Keys;
      while todo != {}
        invariant todo <= numbers.Keys == r.Keys
        invariant forall key :: key in r ==>
                    UpToDate(CountOf(counters, key), r[key], if key in todo then workers[..i] else workers[..i + 1], key)
        decreases todo
      {
        var key :| key in todo;
        todo := todo - {key};
        var number := AddNumber(workers, i, key, r[key]);
        r := r[key := number];
      }
    }

    /** Whatever earlier calls left in the counters, the result is the summary of these workers. */
    method AggregateWorkers(workers: seq<Worker>) returns (result: Summary)
      modifies this
      ensures result == SummaryOf(workers)
    {
      counters := map key | key in counters.Keys + AVERAGED :: 0;
      var numbers := AggregateNumbers(workers);
      forall key | key in AVERAGED
        ensures numbers[key] == Average(workers, key)
      {
        PassGivesMean(workers, key);
      }
      var lists, drivers := AggregateLists(workers);
      result := Summary(numbers, lists, drivers, |workers|);
    }

    method AggregateNumbers(workers: seq<Worker>) returns (numbers: map<Key, real>)
      requires forall key :: CountOf(counters, key) == 0
      modifies this
      ensures numbers.Keys == AVERAGED + SUMMED
      ensures forall key :: key in AVERAGED ==> numbers[key] == Pass(workers, key).1
      ensures forall key :: key in SUMMED ==> numbers[key] == Total(workers, key)
    {
      numbers := map key | key in AVERAGED + SUMMED :: 0.0;
      NothingYet(counters, numbers);
      for i := 0 to |workers|
        invariant AllUpToDate(counters, numbers, workers[..i])
      {
        numbers := AddNumbers(workers, i, numbers);
      }
      assert workers[..|workers|] == workers;
      AllDone(counters, numbers, workers);
    }

    method AggregateLists(workers: seq<Worker>) returns (lists: map<Key, Option<seq<string>>>, drivers: Option<seq<string>>)
      ensures lists == SummaryOf(workers).lists && drivers == SummaryOf(workers).csiDrivers
    {
      lists := map key | key in LISTED :: None;
      drivers := None;
      for i := 0 to |workers|
        invariant lists == map key | key in LISTED :: Concatenation(workers[..i], key)
        invariant drivers == MergedDrivers(workers[..i])
      {
        assert workers[..i + 1][..i] == workers[..i];
        lists := map key | key in LISTED :: AddListing(lists[key], workers[i], key);
        if workers[i].csiDrivers.Some? {
          var merged := MergeDrivers(if drivers.Some? then drivers.value else [], workers[i].csiDrivers.value);
          drivers := Some(merged);
        }
      }
      assert workers[..|workers|] == workers;
    }

    method MergeDrivers(acc: seq<string>, items: seq<CsiItem>) returns (r: seq<string>)
      ensures r == AddDrivers(acc, items)
    {
      r := acc;
      for i := 0 to |items|
        invariant r == AddDrivers(acc, items[..i])
      {
        assert items[..i + 1][..i] == items[..i];
        r := AddDriver(r, items[i]);
      }
      assert items[..|items|] == items;
    }
  }

  // ---- What a report counts for ----

  /** A worker that does not report a number, or reports zero, adds nothing to the sum and does not count for the mean. */
  lemma {:induction false} ReportCounts(workers: seq<Worker>, w: Worker, key: Key)
    ensures var reported := if key in w.numbers then w.numbers[key] else 0.0;
            && Total(workers + [w], key) == Total(workers, key) + reported
            && NonZero(Values(workers + [w], key)) == NonZero(Values(workers, key)) + (if reported == 0.0 then [] else [reported])
  {
    TotalSnoc(workers, w, key);
    ValuesSnoc(workers + [w], |workers|, key);
    assert (workers + [w])[..|workers|] == workers && (workers + [w])[..|workers| + 1] == workers + [w];
    NonZeroSnoc(Values(workers, key), ValueOf(w, key));
    assert NonZero(Values(workers, key)) + [] == NonZero(Values(workers, key));
  }

  // ---- What a summary holds under each key ----

  /** Loads and temperatures are averaged, capacities summed, and lists concatenated. */
  lemma {:induction false} SummaryByKey(workers: seq<Worker>, key: Key)
    ensures key.CpuPercent? || key.MemoryPercent? || key.VramPercent? || key.GpuTemp? || key.GpuPercent? ==>
              key in SummaryOf(workers).numbers && SummaryOf(workers).numbers[key] == Average(workers, key)
    ensures key.Vcpus? || key.Vram? || key.Vgpus? || key.Memory? ==>
              key in SummaryOf(workers).numbers && SummaryOf(workers).numbers[key] == Total(workers, key)
    ensures key.GpuDrivers? || key.Virtualization? || key.SupportedAddons? ==>
              key in SummaryOf(workers).lists && SummaryOf(workers).lists[key] == Concatenation(workers, key)
  {
    KeySets(key);
  }

  lemma {:induction false} KeySets(key: Key)
    ensures key in AVERAGED <==> key.CpuPercent? || key.MemoryPercent? || key.VramPercent? || key.GpuTemp? || key.GpuPercent?
    ensures key in SUMMED <==> key.Vcpus? || key.Vram? || key.Vgpus? || key.Memory?
    ensures key in LISTED <==> key.GpuDrivers? || key.Virtualization? || key.SupportedAddons?
  {
  }

  function ItemsIn(list: Option<seq<string>>): seq<string> {
    if list.Some? then list.value else []
  }

  lemma {:induction false} OneMoreList(workers: seq<Worker>, w: Worker, key: Key)
    ensures Concatenation(workers + [w], key).Some? <==> Concatenation(workers, key).Some? || key in w.listings
    ensures ItemsIn(Concatenation(workers + [w], key)) ==
            ItemsIn(Concatenation(workers, key)) + if key in w.listings then ItemsOf(w.listings[key]) else []
  {
    assert (workers + [w])[..|workers|] == workers;
  }

  lemma {:induction false} OwnList(w: Worker, key: Key)
    ensures Concatenation([w], key) == if key in w.listings then Some(ItemsOf(w.listings[key])) else None
  {
    assert Concatenation([w], key) == AddListing(Concatenation([], key), w, key);
    assert [w][..0] == [];
    if key in w.listings {
      assert [] + ItemsOf(w.listings[key]) == ItemsOf(w.listings[key]);
    }
  }

  /** What two groups of workers list together is what they list apart, in their order. */
  lemma {:induction false} ListsJoin(a: seq<Worker>, b: seq<Worker>, key: Key)
    ensures Concatenation(a + b, key).Some? <==> Concatenation(a, key).Some? || Concatenation(b, key).Some?
    ensures ItemsIn(Concatenation(a + b, key)) == ItemsIn(Concatenation(a, key)) + ItemsIn(Concatenation(b, key))
    decreases |b|
  {
    if b == [] {
      assert a + b == a;
    } else {
      var before, last := b[..|b| - 1], b[|b| - 1];
      assert b == before + [last] && a + b == (a + before) + [last];
      ListsJoin(a, before, key);
      OneMoreList(a + before, last, key);
      OneMoreList(before, last, key);
    }
  }

  // ---- Order does not matter ----

  lemma {:induction false} SumConcat(a: seq<real>, b: seq<real>)
    ensures Sum(a + b) == Sum(a) + Sum(b)
    decreases |b|
  {
    if b == [] {
      assert a + b == a;
    } else {
      assert (a + b)[..|a + b| - 1] == a + b[..|b| - 1];
      SumConcat(a, b[..|b| - 1]);
    }
  }

  lemma {:induction false} NonZeroConcat(a: seq<real>, b: seq<real>)
    ensures NonZero(a + b) == NonZero(a) + NonZero(b)
    decreases |b|
  {
    if b == [] {
      assert a + b == a;
    } else {
      assert (a + b)[..|a + b| - 1] == a + b[..|b| - 1];
      NonZeroConcat(a, b[..|b| - 1]);
    }
  }

  lemma {:induction false} ValuesConcat(a: seq<Worker>, b: seq<Worker>, key: Key)
    ensures Values(a + b, key) == Values(a, key) + Values(b, key)
  {
  }

  /** What the reports of `key` come to: how many count for the mean, and the sums of these and of all. */
  datatype Weight = Weight(counted: int, sum: real, total: real)

  function WeightOf(workers: seq<Worker>, key: Key): Weight {
    Weight(Counted(workers, key), Sum(NonZero(Values(workers, key))), Total(workers, key))
  }

  function Plus(a: Weight, b: Weight): Weight {
    Weight(a.counted + b.counted, a.sum + b.sum, a.total + b.total)
  }

  lemma {:induction false} WeightConcat(a: seq<Worker>, b: seq<Worker>, key: Key)
    ensures WeightOf(a + b, key) == Plus(WeightOf(a, key), WeightOf(b, key))
  {
    var va, vb := Values(a, key), Values(b, key);
    ValuesConcat(a, b, key);
    WeightOfValues(va, vb);
  }

  lemma {:induction false} WeightOfValues(a: seq<real>, b: seq<real>)
    ensures Sum(a + b) == Sum(a) + Sum(b)
    ensures |NonZero(a + b)| == |NonZero(a)| + |NonZero(b)|
    ensures Sum(NonZero(a + b)) == Sum(NonZero(a)) + Sum(NonZero(b))
  {
    NonZeroConcat(a, b);
    SumConcat(a, b);
    SumConcat(NonZero(a), NonZero(b));
  }

  /** Taking one worker out takes its weight out. */
  lemma {:induction false} WeightWithout(b: seq<Worker>, k: nat, key: Key)
    requires k < |b|
    ensures WeightOf(b, key) == Plus(WeightOf([b[k]], key), WeightOf(b[..k] + b[k + 1..], key))
  {
    assert b == b[..k] + ([b[k]] + b[k + 1..]);
    WeightConcat(b[..k], [b[k]] + b[k + 1..], key);
    WeightConcat([b[k]], b[k + 1..], key);
    WeightConcat(b[..k], b[k + 1..], key);
  }

  lemma {:induction false} SameWorkersSameWeight(a: seq<Worker>, b: seq<Worker>, key: Key)
    requires multiset(a) == multiset(b)
    ensures WeightOf(a, key) == WeightOf(b, key)
    decreases |a|
  {
    if a == [] {
      assert |b| == |multiset(b)| == 0;
    } else {
      assert a[0] in multiset(b);
      var k :| 0 <= k < |b| && b[k] == a[0];
      OneWorkerLess(a, b, k);
      SameWorkersSameWeight(a[..0] + a[1..], b[..k] + b[k + 1..], key);
      WeightWithout(a, 0, key);
      WeightWithout(b, k, key);
    }
  }

  lemma {:induction false} MultisetWithout<T>(b: seq<T>, k: nat)
    requires k < |b|
    ensures multiset(b) == multiset{b[k]} + multiset(b[..k] + b[k + 1..])
  {
    assert b == b[..k] + [b[k]] + b[k + 1..];
  }

  lemma {:induction false} OneWorkerLess(a: seq<Worker>, b: seq<Worker>, k: nat)
    requires multiset(a) == multiset(b) && a != [] && k < |b| && b[k] == a[0]
    ensures multiset(a[..0] + a[1..]) == multiset(b[..k] + b[k + 1..])
  {
    MultisetWithout(a, 0);
    MultisetWithout(b, k);
    assert multiset(a[..0] + a[1..]) == multiset(a) - multiset{a[0]};
    assert multiset(b[..k] + b[k + 1..]) == multiset(b) - multiset{b[k]};
  }

  /** Neither a mean nor a sum depends on the order in which the workers come. */
  lemma {:induction false} OrderDoesNotMatter(a: seq<Worker>, b: seq<Worker>)
    requires multiset(a) == multiset(b)
    ensures SummaryOf(a).numbers == SummaryOf(b).numbers && SummaryOf(a).activeNodes == SummaryOf(b).activeNodes
  {
    assert |a| == |multiset(a)| == |multiset(b)| == |b|;
    forall key | key in AVERAGED + SUMMED
      ensures SummaryOf(a).numbers[key] == SummaryOf(b).numbers[key]
    {
      SameWorkersSameWeight(a, b, key);
    }
  }

  // ---- Architectures ----

  function Group(workers: seq<Worker>, arch: Option<string>): seq<Worker> {
    if workers == [] then
      []
    else
      var w := workers[|workers| - 1];
      Group(workers[..|workers| - 1], arch) + if w.architecture == arch then [w] else []
  }

  /** The architectures in the order in which they first appear. */
  function Architectures(workers: seq<Worker>): seq<string> {
    if workers == [] then
      []
    else
      var known := Architectures(workers[..|workers| - 1]);
      var arch := workers[|workers| - 1].architecture;
      if arch.None? || arch.value in known then known else known + [arch.value]
  }

  function TotalPerArchitecture(workers: seq<Worker>, archs: seq<string>, key: Key): real {
    if archs == [] then
      0.0
    else
      TotalPerArchitecture(workers, archs[..|archs| - 1], key) + Total(Group(workers, Some(archs[|archs| - 1])), key)
  }

  function NodesPerArchitecture(workers: seq<Worker>, archs: seq<string>): int {
    if archs == [] then
      0
    else
      NodesPerArchitecture(workers, archs[..|archs| - 1]) + |Group(workers, Some(archs[|archs| - 1]))|
  }

  method GroupByArchitecture(workers: seq<Worker>) returns (groups: map<string, seq<Worker>>)
    ensures forall arch :: arch in groups <==> arch in Architectures(workers)
    ensures forall arch :: arch in groups ==> groups[arch] == Group(workers, Some(arch))
  {
    groups := map[];
    for i := 0 to |workers|
      invariant forall arch :: arch in groups <==> arch in Architectures(workers[..i])
      invariant forall arch :: arch in groups ==> groups[arch] == Group(workers[..i], Some(arch))
    {
      var w := workers[i];
      assert workers[..i + 1][..i] == workers[..i];
      if w.architecture.Some? {
        var arch := w.architecture.value;
        if arch !in groups {
          UnknownIsEmpty(workers[..i], arch);
        }
        groups := groups[arch := (if arch in groups then groups[arch] else []) + [w]];
      }
    }
    assert workers[..|workers|] == workers;
  }

  /** The summaries per architecture, as they are reported besides the whole. */
  method AggregatePerArchitecture(a: Aggregator, workers: seq<Worker>) returns (r: map<string, Summary>)
    modifies a
    ensures forall arch :: arch in r <==> arch in Architectures(workers)
    ensures forall arch :: arch in r ==> r[arch] == SummaryOf(Group(workers, Some(arch)))
  {
    var groups := GroupByArchitecture(workers);
    r := map[];
    var todo := groups.Keys;
    while todo != {}
      invariant todo <= groups.Keys && r.Keys == groups.Keys - todo
      invariant forall arch :: arch in r ==> r[arch] == SummaryOf(groups[arch])
      decreases todo
    {
      var arch :| arch in todo;
      todo := todo - {arch};
      var summary := a.AggregateWorkers(groups[arch]);
      r := r[arch := summary];
    }
  }

  lemma {:induction false} UnknownIsEmpty(workers: seq<Worker>, arch: string)
    requires arch !in Architectures(workers)
    ensures Group(workers, Some(arch)) == []
  {
    if workers != [] {
      UnknownIsEmpty(workers[..|workers| - 1], arch);
    }
  }

  lemma {:induction false} GroupStep(workers: seq<Worker>, w: Worker, arch: Option<string>, key: Key)
    ensures Group(workers + [w], arch) == Group(workers, arch) + if w.architecture == arch then [w] else []
    ensures Total(Group(workers + [w], arch), key) ==
            Total(Group(workers, arch), key) + if w.architecture == arch then ValueOf(w, key) else 0.0
  {
    assert (workers + [w])[..|workers|] == workers;
    TotalSnoc(Group(workers, arch), w, key);
    assert Group(workers, arch) + [] == Group(workers, arch);
  }

  lemma {:induction false} TotalSnoc(workers: seq<Worker>, w: Worker, key: Key)
    ensures Total(workers + [w], key) == Total(workers, key) + ValueOf(w, key)
  {
    TotalStep(workers + [w], |workers|, key);
    assert (workers + [w])[..|workers|] == workers && (workers + [w])[..|workers| + 1] == workers + [w];
  }

  /** One more worker of a known architecture adds to the sum over architectures what it adds to its own. */
  lemma {:induction false} OneMoreWorker(workers: seq<Worker>, w: Worker, archs: seq<string>, key: Key)
    requires forall i, j :: 0 <= i < j < |archs| ==> archs[i] != archs[j]
    ensures var counted := w.architecture.Some? && w.architecture.value in archs;
            && TotalPerArchitecture(workers + [w], archs, key) ==
                 TotalPerArchitecture(workers, archs, key) + (if counted then ValueOf(w, key) else 0.0)
            && NodesPerArchitecture(workers + [w], archs) ==
                 NodesPerArchitecture(workers, archs) + (if counted then 1 else 0)
  {
    if archs != [] {
      var fewer, arch := archs[..|archs| - 1], archs[|archs| - 1];
      assert arch !in fewer && archs == fewer + [arch];
      OneMoreWorker(workers, w, fewer, key);
      GroupStep(workers, w, Some(arch), key);
    }
  }

  ghost predicate DistinctNames(archs: seq<string>) {
    forall i, j :: 0 <= i < j < |archs| ==> archs[i] != archs[j]
  }

  lemma {:induction false} ArchitecturesDistinct(workers: seq<Worker>)
    ensures DistinctNames(Architectures(workers))
  {
    if workers != [] {
      ArchitecturesDistinct(workers[..|workers| - 1]);
    }
  }

  lemma {:induction false} NewArchitecture(workers: seq<Worker>, w: Worker, key: Key)
    requires w.architecture.Some? && w.architecture.value !in Architectures(workers)
    ensures var archs := Architectures(workers);
            && TotalPerArchitecture(workers + [w], archs + [w.architecture.value], key) ==
                 TotalPerArchitecture(workers, archs, key) + ValueOf(w, key)
            && NodesPerArchitecture(workers + [w], archs + [w.architecture.value]) == NodesPerArchitecture(workers, archs) + 1
  {
    var archs, arch := Architectures(workers), w.architecture.value;
    ArchitecturesDistinct(workers);
    OneMoreWorker(workers, w, archs, key);
    UnknownIsEmpty(workers, arch);
    GroupStep(workers, w, Some(arch), key);
    assert Total([], key) == 0.0;
    assert (archs + [arch])[..|archs|] == archs;
  }

  /** The totals per architecture and those of the workers without one add up to the cluster's totals. */
  lemma {:induction false} ArchitecturesAddUp(workers: seq<Worker>, key: Key)
    ensures Total(workers, key) ==
            TotalPerArchitecture(workers, Architectures(workers), key) + Total(Group(workers, None), key)
    ensures |workers| == NodesPerArchitecture(workers, Architectures(workers)) + |Group(workers, None)|
  {
    if workers != [] {
      var before, w := workers[..|workers| - 1], workers[|workers| - 1];
      assert workers == before + [w];
      ArchitecturesAddUp(before, key);
      TotalSnoc(before, w, key);
      GroupStep(before, w, None, key);
      ArchitecturesDistinct(before);
      if w.architecture.Some? && w.architecture.value !in Architectures(before) {
        NewArchitecture(before, w, key);
      } else {
        OneMoreWorker(before, w, Architectures(before), key);
      }
    }
  }

  /** When every worker has an architecture, the summaries per architecture add up to the summary of the cluster. */
  lemma {:induction false} CompleteArchitecturesAddUp(workers: seq<Worker>, key: Key)
    requires key in SUMMED && forall w :: w in workers ==> w.architecture.Some?
    ensures SummaryOf(workers).numbers[key] == TotalPerArchitecture(workers, Architectures(workers), key)
    ensures SummaryOf(workers).activeNodes == NodesPerArchitecture(workers, Architectures(workers))
  {
    SummaryHasTotals(workers, key);
    ArchitecturesAddUp(workers, key);
    NobodyWithout(workers);
    assert Total([], key) == 0.0;
  }

  lemma {:induction false} SummaryHasTotals(workers: seq<Worker>, key: Key)
    requires key in SUMMED
    ensures SummaryOf(workers).numbers[key] == Total(workers, key) && SummaryOf(workers).activeNodes == |workers|
  {
  }

  lemma {:induction false} NobodyWithout(workers: seq<Worker>)
    requires forall w :: w in workers ==> w.architecture.Some?
    ensures Group(workers, None) == []
  {
    if workers != [] {
      NobodyWithout(workers[..|workers| - 1]);
    }
  }
}
