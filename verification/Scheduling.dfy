/**
 The scheduler's best fit, and that a cluster's summary never hides a worker that could take a job.
 */
module Scheduling {
  import opened Wrappers
  import opened Aggregation

  /** A job or a candidate after decoding; of a job's volumes only the names of the CSI drivers matter. */
  datatype Resources = Resources(
    id: string,
    virtualization: seq<string>,
    availableMem: real,
    availableCpu: real,
    cpuPercent: real,
    csiDrivers: seq<string>,
    volumeDrivers: seq<string>)

  datatype SchedulingStatus = TargetClusterNotActive | NoActiveClusterWithCapacity

  datatype Choice = Chosen(candidate: Resources) | Refused(status: SchedulingStatus)

  // ---- What the scheduler tests ----

  predicate MeetsBasicRequirements(job: Resources, c: Resources) {
    && job.virtualization != []
    && job.virtualization[0] in c.virtualization
    && c.availableCpu >= job.availableCpu
    && c.availableMem >= job.availableMem
  }

  predicate HasRequiredDrivers(job: Resources, c: Resources) {
    forall i :: 0 <= i < |job.volumeDrivers| ==> job.volumeDrivers[i] == "" || job.volumeDrivers[i] in c.csiDrivers
  }

  predicate Qualifies(job: Resources, c: Resources) {
    MeetsBasicRequirements(job, c) && HasRequiredDrivers(job, c)
  }

  function Score(c: Resources): real {
    (100.0 - c.cpuPercent) + c.availableMem
  }

  method CheckDrivers(job: Resources, c: Resources) returns (ok: bool)
    ensures ok == HasRequiredDrivers(job, c)
  {
    for i := 0 to |job.volumeDrivers|
      invariant forall j :: 0 <= j < i ==> job.volumeDrivers[j] == "" || job.volumeDrivers[j] in c.csiDrivers
    {
      if job.volumeDrivers[i] == "" {
        continue;
      }
      if job.volumeDrivers[i] !in c.csiDrivers {
        return false;
      }
    }
    ok := true;
  }

  /** The candidates that qualify, in their order. */
  function Qualified(job: Resources, candidates: seq<Resources>): (r: seq<Resources>)
    ensures forall c :: c in r <==> c in candidates && Qualifies(job, c)
  {
    if candidates == [] then
      []
    else
      Qualified(job, candidates[..|candidates| - 1])
      + if Qualifies(job, candidates[|candidates| - 1]) then [candidates[|candidates| - 1]] else []
  }

  method FilterRequirements(job: Resources, candidates: seq<Resources>) returns (filtered: seq<Resources>)
    ensures filtered == Qualified(job, candidates)
  {
    filtered := [];
    for i := 0 to |candidates|
      invariant filtered == Qualified(job, candidates[..i])
    {
      assert candidates[..i + 1][..i] == candidates[..i];
      var ok := CheckDrivers(job, candidates[i]);
      if MeetsBasicRequirements(job, candidates[i]) && ok {
        filtered := filtered + [candidates[i]];
      }
    }
    assert candidates[..|candidates|] == candidates;
  }

  ghost predicate Ascending(s: seq<Resources>) {
    forall i, j :: 0 <= i < j < |s| ==> Score(s[i]) <= Score(s[j])
  }

  /** The library's sort: any ascending rearrangement will do. */
  method SortByScore(a: array<Resources>)
    modifies a
    ensures multiset(a[..]) == multiset(old(a[..])) && Ascending(a[..])
  {
    for n := 0 to a.Length
      invariant multiset(a[..]) == multiset(old(a[..]))
      invariant Ascending(a[..n])
    {
      Insert(a, n);
    }
    assert a[..a.Length] == a[..];
  }

  /** The first `n + 1` ascend but for the one at `k`, which may be too small for its place. */
  ghost predicate AscendingBut(s: seq<Resources>, n: nat, k: nat)
    requires n < |s|
  {
    forall i, j :: 0 <= i < j <= n && j != k ==> Score(s[i]) <= Score(s[j])
  }

  method Insert(a: array<Resources>, n: nat)
    requires n < a.Length && Ascending(a[..n])
    modifies a
    ensures multiset(a[..]) == multiset(old(a[..])) && Ascending(a[..n + 1])
  {
    var k := n;
    assert forall i :: 0 <= i < n ==> a[..n][i] == a[i];
    while 0 < k && Score(a[k]) < Score(a[k - 1])
      invariant 0 <= k <= n && multiset(a[..]) == multiset(old(a[..])) && AscendingBut(a[..], n, k)
    {
      Swap(a, k);
      k := k - 1;
    }
    PlaceFound(a[..], n, k);
    assert a[..][..n + 1] == a[..n + 1];
  }

  method Swap(a: array<Resources>, k: nat)
    requires 0 < k < a.Length
    modifies a
    ensures a[..] == old(a[..])[k - 1 := old(a[k])][k := old(a[k - 1])]
    ensures multiset(a[..]) == multiset(old(a[..]))
  {
    a[k - 1], a[k] := a[k], a[k - 1];
  }

  lemma {:induction false} PlaceFound(s: seq<Resources>, n: nat, k: nat)
    requires k <= n < |s| && AscendingBut(s, n, k) && (k == 0 || Score(s[k - 1]) <= Score(s[k]))
    ensures Ascending(s[..n + 1])
  {
    forall i, j | 0 <= i < j <= n
      ensures Score(s[i]) <= Score(s[j])
    {
      if j == k && i < k - 1 {
        assert Score(s[i]) <= Score(s[k - 1]);
      }
    }
  }

  /** Refuses exactly if no candidate qualifies; otherwise none that qualifies has more memory left over its CPU load. */
  method Calculate(job: Resources, candidates: seq<Resources>) returns (r: Choice)
    ensures r.Refused? <==> forall c :: c in candidates ==> !Qualifies(job, c)
    ensures r == Refused(TargetClusterNotActive) <==> candidates == []
    ensures r.Chosen? ==> r.candidate in candidates && Qualifies(job, r.candidate)
    ensures r.Chosen? ==> forall c :: c in candidates && Qualifies(job, c) ==>
              c.availableMem - c.cpuPercent <= r.candidate.availableMem - r.candidate.cpuPercent
  {
    if |candidates| == 0 {
      return Refused(TargetClusterNotActive);
    }
    var filtered := FilterRequirements(job, candidates);
    if |filtered| == 0 {
      assert forall c :: c in candidates && Qualifies(job, c) ==> c in filtered;
      return Refused(NoActiveClusterWithCapacity);
    }
    var a := new Resources[|filtered|](i requires 0 <= i < |filtered| => filtered[i]);
    assert a[..] == filtered;
    SortByScore(a);
    var best := a[a.Length - 1];
    assert best in multiset(a[..]);
    assert best in filtered;
    forall c | c in candidates && Qualifies(job, c)
      ensures Score(c) <= Score(best)
    {
      assert c in multiset(filtered);
      assert c in a[..];
      var i :| 0 <= i < a.Length && a[..][i] == c;
    }
    r := Chosen(best);
  }

  // ---- What the scheduler sees of a worker and of a cluster ----

  function DriverName(item: CsiItem): string {
    if item.Nameless? then "" else item.name
  }

  /** The names in order of first appearance. */
  function Normalised(items: seq<CsiItem>): (r: seq<string>)
    ensures forall name :: name in r <==> name != "" && exists i :: 0 <= i < |items| && DriverName(items[i]) == name
    ensures forall i, j :: 0 <= i < j < |r| ==> r[i] != r[j]
  {
    if items == [] then
      []
    else
      var before := Normalised(items[..|items| - 1]);
      var name := DriverName(items[|items| - 1]);
      if name == "" || name in before then before else before + [name]
  }

  method NormaliseCsiDrivers(items: seq<CsiItem>) returns (result: seq<string>)
    ensures result == Normalised(items)
  {
    var seen: set<string> := {};
    result := [];
    for i := 0 to |items|
      invariant result == Normalised(items[..i])
      invariant seen == set name | name in result
    {
      assert items[..i + 1][..i] == items[..i];
      var name := DriverName(items[i]);
      if name == "" {
        continue;
      }
      if name !in seen {
        seen := seen + {name};
        result := result + [name];
      }
    }
    assert items[..|items|] == items;
  }

  function NormalisedListing(l: Option<Listing>): seq<string> {
    if l.None? then [] else ItemsOf(l.value)
  }

  function DecodeWorker(id: string, w: Worker): Resources {
    Resources(id, NormalisedListing(if Virtualization in w.listings then Some(w.listings[Virtualization]) else None),
              ValueOf(w, Memory), ValueOf(w, Vcpus), ValueOf(w, CpuPercent),
              Normalised(if w.csiDrivers.Some? then w.csiDrivers.value else []), [])
  }

  /** A cluster as the root scheduler decodes its summary: the driver names arrive as plain strings. */
  function DecodeCluster(id: string, s: Summary): Resources
    requires {Memory, Vcpus, CpuPercent} <= s.numbers.Keys && Virtualization in s.lists
  {
    var drivers := if s.csiDrivers.Some? then s.csiDrivers.value else [];
    Resources(id, if s.lists[Virtualization].Some? then s.lists[Virtualization].value else [],
              s.numbers[Memory], s.numbers[Vcpus], s.numbers[CpuPercent],
              Normalised(seq(|drivers|, i requires 0 <= i < |drivers| => Plain(drivers[i]))), [])
  }

  // ---- The summary never hides a capable worker ----

  lemma {:induction false} ConcatenationHas(workers: seq<Worker>, k: nat, key: Key)
    requires k < |workers| && key in workers[k].listings
    ensures var all := Concatenation(workers, key);
            all.Some? && forall x :: x in ItemsOf(workers[k].listings[key]) ==> x in all.value
  {
    if k < |workers| - 1 {
      ConcatenationHas(workers[..|workers| - 1], k, key);
    }
  }

  lemma {:induction false} AddDriversHas(acc: seq<string>, items: seq<CsiItem>)
    ensures forall x :: x in AddDrivers(acc, items) <==>
              x in acc || (x != "" && exists i :: 0 <= i < |items| && DriverName(items[i]) == x)
  {
    if items != [] {
      AddDriversHas(acc, items[..|items| - 1]);
    }
  }

  lemma {:induction false} MergedDriversHave(workers: seq<Worker>, k: nat, name: string)
    requires k < |workers| && workers[k].csiDrivers.Some? && name in Normalised(workers[k].csiDrivers.value)
    ensures MergedDrivers(workers).Some? && name in MergedDrivers(workers).value
  {
    var before := workers[..|workers| - 1];
    if k < |workers| - 1 {
      MergedDriversHave(before, k, name);
    }
    var w := workers[|workers| - 1];
    if w.csiDrivers.Some? {
      AddDriversHas(if MergedDrivers(before).Some? then MergedDrivers(before).value else [], w.csiDrivers.value);
    }
  }

  lemma {:induction false} TotalCovers(workers: seq<Worker>, k: nat, key: Key)
    requires k < |workers| && forall w :: w in workers ==> ValueOf(w, key) >= 0.0
    ensures Total(workers, key) >= ValueOf(workers[k], key)
  {
    WeightWithout(workers, k, key);
    TotalSnoc([], workers[k], key);
    assert [] + [workers[k]] == [workers[k]];
    NonNegativeTotal(workers[..k] + workers[k + 1..], key);
  }

  lemma {:induction false} NonNegativeTotal(workers: seq<Worker>, key: Key)
    requires forall w :: w in workers ==> ValueOf(w, key) >= 0.0
    ensures Total(workers, key) >= 0.0
  {
    if workers != [] {
      var before := workers[..|workers| - 1];
      assert workers == before + [workers[|workers| - 1]];
      NonNegativeTotal(before, key);
      TotalSnoc(before, workers[|workers| - 1], key);
    }
  }

  predicate NonNegative(workers: seq<Worker>) {
    forall w :: w in workers ==> ValueOf(w, Memory) >= 0.0 && ValueOf(w, Vcpus) >= 0.0
  }

  lemma {:induction false} DecodedDrivers(id: string, workers: seq<Worker>, name: string)
    ensures name in DecodeCluster(id, SummaryOf(workers)).csiDrivers <==>
            name != "" && MergedDrivers(workers).Some? && name in MergedDrivers(workers).value
  {
    var drivers := if MergedDrivers(workers).Some? then MergedDrivers(workers).value else [];
    var items := seq(|drivers|, i requires 0 <= i < |drivers| => Plain(drivers[i]));
    assert forall i :: 0 <= i < |drivers| ==> DriverName(items[i]) == drivers[i];
    if name in drivers {
      var i :| 0 <= i < |drivers| && drivers[i] == name;
      assert DriverName(items[i]) == name;
    }
  }

  // ---- The drivers of a cluster ----

  /** Everything the workers advertise, in their order. */
  function AllItems(workers: seq<Worker>): seq<CsiItem> {
    if workers == [] then []
    else
      var w := workers[|workers| - 1];
      AllItems(workers[..|workers| - 1]) + if w.csiDrivers.Some? then w.csiDrivers.value else []
  }

  lemma {:induction false} DriversOnTop(a: seq<CsiItem>, b: seq<CsiItem>)
    ensures AddDrivers(Normalised(a), b) == Normalised(a + b)
    decreases |b|
  {
    if b == [] {
      assert a + b == a;
    } else {
      assert (a + b)[..|a + b| - 1] == a + b[..|b| - 1];
      DriversOnTop(a, b[..|b| - 1]);
    }
  }

  /** Merging worker by worker gives the distinct names of all that is advertised, in order of first appearance. */
  lemma {:induction false} MergedIsNormalised(workers: seq<Worker>)
    ensures MergedDrivers(workers) ==
            if exists w :: w in workers && w.csiDrivers.Some? then Some(Normalised(AllItems(workers))) else None
  {
    if workers != [] {
      var before, w := workers[..|workers| - 1], workers[|workers| - 1];
      MergedIsNormalised(before);
      assert workers == before + [w];
      if w.csiDrivers.Some? {
        NothingListed(before);
        DriversOnTop(AllItems(before), w.csiDrivers.value);
      } else {
        assert AllItems(workers) == AllItems(before);
      }
    }
  }

  lemma {:induction false} NothingListed(workers: seq<Worker>)
    ensures (forall w :: w in workers ==> w.csiDrivers.None?) ==> AllItems(workers) == []
  {
    if workers != [] {
      NothingListed(workers[..|workers| - 1]);
    }
  }

  /** More items never move a name that is there already: a name keeps the place of its first appearance. */
  lemma {:induction false} NormalisedGrows(a: seq<CsiItem>, b: seq<CsiItem>)
    ensures Normalised(a) <= Normalised(a + b)
    decreases |b|
  {
    if b == [] {
      assert a + b == a;
    } else {
      assert (a + b)[..|a + b| - 1] == a + b[..|b| - 1];
      NormalisedGrows(a, b[..|b| - 1]);
    }
  }

  function AsPlain(names: seq<string>): (r: seq<CsiItem>)
    ensures |r| == |names| && forall i :: 0 <= i < |r| ==> r[i] == Plain(names[i])
  {
    seq(|names|, i requires 0 <= i < |names| => Plain(names[i]))
  }

  lemma {:induction false} NamesAreNormal(names: seq<string>)
    requires forall i, j :: 0 <= i < j < |names| ==> names[i] != names[j]
    requires forall i :: 0 <= i < |names| ==> names[i] != ""
    ensures Normalised(AsPlain(names)) == names
  {
    if names != [] {
      var before := names[..|names| - 1];
      assert AsPlain(names)[..|names| - 1] == AsPlain(before);
      NamesAreNormal(before);
    }
  }

  /** The root decodes from a cluster's summary exactly the distinct names that the cluster's workers advertise. */
  lemma {:induction false} RootSeesDrivers(id: string, workers: seq<Worker>)
    ensures DecodeCluster(id, SummaryOf(workers)).csiDrivers == Normalised(AllItems(workers))
  {
    MergedIsNormalised(workers);
    NothingListed(workers);
    var names := ItemsIn(MergedDrivers(workers));
    assert names == Normalised(AllItems(workers));
    assert forall i :: 0 <= i < |names| ==> names[i] in names;
    NamesAreNormal(names);
    assert AsPlain(names) == seq(|names|, i requires 0 <= i < |names| => Plain(names[i]));
  }

  /** If one worker of a cluster can take the job, then the cluster's summary says that the cluster can. */
  lemma {:induction false} SummaryNeverHides(job: Resources, id: string, workers: seq<Worker>, k: nat, workerId: string)
    requires k < |workers| && NonNegative(workers) && Qualifies(job, DecodeWorker(workerId, workers[k]))
    ensures Qualifies(job, DecodeCluster(id, SummaryOf(workers)))
  {
    var cluster := DecodeCluster(id, SummaryOf(workers));
    ConcatenationHas(workers, k, Virtualization);
    TotalCovers(workers, k, Memory);
    TotalCovers(workers, k, Vcpus);
    forall i | 0 <= i < |job.volumeDrivers| && job.volumeDrivers[i] != ""
      ensures job.volumeDrivers[i] in cluster.csiDrivers
    {
      MergedDriversHave(workers, k, job.volumeDrivers[i]);
      DecodedDrivers(id, workers, job.volumeDrivers[i]);
    }
  }

  // ---- What a summary promises ----

  predicate Offers(w: Worker, virtualization: string) {
    Virtualization in w.listings && virtualization in ItemsOf(w.listings[Virtualization])
  }

  predicate Advertises(w: Worker, driver: string) {
    w.csiDrivers.Some? && driver != "" && exists i :: 0 <= i < |w.csiDrivers.value| && DriverName(w.csiDrivers.value[i]) == driver
  }

  predicate SomeOffers(workers: seq<Worker>, virtualization: string) {
    exists k :: 0 <= k < |workers| && Offers(workers[k], virtualization)
  }

  predicate SomeAdvertises(workers: seq<Worker>, driver: string) {
    exists k :: 0 <= k < |workers| && Advertises(workers[k], driver)
  }

  lemma {:induction false} ListedIffOffered(workers: seq<Worker>, v: string)
    ensures var all := Concatenation(workers, Virtualization);
            SomeOffers(workers, v) <==> all.Some? && v in all.value
  {
    if workers != [] {
      var before, w := workers[..|workers| - 1], workers[|workers| - 1];
      ListedIffOffered(before, v);
      assert SomeOffers(workers, v) <==> SomeOffers(before, v) || Offers(w, v) by {
        assert forall k :: 0 <= k < |before| ==> before[k] == workers[k];
      }
    }
  }

  lemma {:induction false} MergedIffAdvertised(workers: seq<Worker>, driver: string)
    requires driver != ""
    ensures SomeAdvertises(workers, driver) <==> MergedDrivers(workers).Some? && driver in MergedDrivers(workers).value
  {
    if workers != [] {
      var before, w := workers[..|workers| - 1], workers[|workers| - 1];
      MergedIffAdvertised(before, driver);
      assert SomeAdvertises(workers, driver) <==> SomeAdvertises(before, driver) || Advertises(w, driver) by {
        assert forall k :: 0 <= k < |before| ==> before[k] == workers[k];
      }
      if w.csiDrivers.Some? {
        AddDriversHas(if MergedDrivers(before).Some? then MergedDrivers(before).value else [], w.csiDrivers.value);
      }
    }
  }

  /**
   What a summary says, exactly: some worker offers the job's virtualization, the workers together have the CPU and the memory,
   and each driver is advertised by some worker, not necessarily the same one.
   */
  lemma {:induction false} SummaryReading(job: Resources, id: string, workers: seq<Worker>)
    ensures Qualifies(job, DecodeCluster(id, SummaryOf(workers))) <==>
            && job.virtualization != [] && SomeOffers(workers, job.virtualization[0])
            && Total(workers, Vcpus) >= job.availableCpu && Total(workers, Memory) >= job.availableMem
            && forall i :: 0 <= i < |job.volumeDrivers| && job.volumeDrivers[i] != "" ==> SomeAdvertises(workers, job.volumeDrivers[i])
  {
    if job.virtualization != [] {
      ListedIffOffered(workers, job.virtualization[0]);
    }
    forall i | 0 <= i < |job.volumeDrivers| && job.volumeDrivers[i] != ""
      ensures job.volumeDrivers[i] in DecodeCluster(id, SummaryOf(workers)).csiDrivers <==> SomeAdvertises(workers, job.volumeDrivers[i])
    {
      DecodedDrivers(id, workers, job.volumeDrivers[i]);
      MergedIffAdvertised(workers, job.volumeDrivers[i]);
    }
  }

  lemma {:induction false} WorkerReading(job: Resources, id: string, w: Worker)
    ensures Qualifies(job, DecodeWorker(id, w)) <==>
            && job.virtualization != [] && Offers(w, job.virtualization[0])
            && ValueOf(w, Vcpus) >= job.availableCpu && ValueOf(w, Memory) >= job.availableMem
            && forall i :: 0 <= i < |job.volumeDrivers| && job.volumeDrivers[i] != "" ==> Advertises(w, job.volumeDrivers[i])
  {
  }

  predicate SomeQualifies(job: Resources, workers: seq<Worker>) {
    exists k :: 0 <= k < |workers| && Qualifies(job, DecodeWorker("", workers[k]))
  }

  /** Worker `k` has by itself all that its cluster sums up and collects, for jobs of this virtualization. */
  predicate HasItAll(workers: seq<Worker>, k: nat, virtualization: string)
    requires k < |workers|
  {
    var drivers := MergedDrivers(workers);
    && Offers(workers[k], virtualization)
    && ValueOf(workers[k], Vcpus) >= Total(workers, Vcpus) && ValueOf(workers[k], Memory) >= Total(workers, Memory)
    && forall i :: drivers.Some? && 0 <= i < |drivers.value| && drivers.value[i] != "" ==> Advertises(workers[k], drivers.value[i])
  }

  predicate SomeHasItAll(workers: seq<Worker>, virtualization: string) {
    exists k :: 0 <= k < |workers| && HasItAll(workers, k, virtualization)
  }

  /** Whatever is offered, one worker has it all. */
  predicate Concentrated(workers: seq<Worker>) {
    var offered := Concatenation(workers, Virtualization);
    offered.Some? ==> forall i :: 0 <= i < |offered.value| ==> SomeHasItAll(workers, offered.value[i])
  }

  /**
   A cluster's summary promises no job that no single worker can take exactly if, for every virtualization it lists, one worker
   has by itself all the CPU, all the memory and all the drivers.
   */
  lemma {:induction false} SummaryIsExactIff(workers: seq<Worker>)
    ensures (forall job, id :: Qualifies(job, DecodeCluster(id, SummaryOf(workers))) ==> SomeQualifies(job, workers))
            <==> Concentrated(workers)
  {
    if Concentrated(workers) {
      forall job, id | Qualifies(job, DecodeCluster(id, SummaryOf(workers)))
        ensures SomeQualifies(job, workers)
      {
        ConcentratedDelivers(workers, job, id);
      }
    } else {
      var offered := Concatenation(workers, Virtualization);
      var i :| 0 <= i < |offered.value| && !SomeHasItAll(workers, offered.value[i]);
      GreedyIsPromised(workers, offered.value[i]);
      GreedyIsNotDelivered(workers, offered.value[i]);
    }
  }

  lemma {:induction false} ConcentratedDelivers(workers: seq<Worker>, job: Resources, id: string)
    requires Concentrated(workers) && Qualifies(job, DecodeCluster(id, SummaryOf(workers)))
    ensures SomeQualifies(job, workers)
  {
    var offered, drivers := Concatenation(workers, Virtualization), MergedDrivers(workers);
    SummaryReading(job, id, workers);
    ListedIffOffered(workers, job.virtualization[0]);
    var i :| 0 <= i < |offered.value| && offered.value[i] == job.virtualization[0];
    var k :| 0 <= k < |workers| && HasItAll(workers, k, offered.value[i]);
    forall j | 0 <= j < |job.volumeDrivers| && job.volumeDrivers[j] != ""
      ensures Advertises(workers[k], job.volumeDrivers[j])
    {
      MergedIffAdvertised(workers, job.volumeDrivers[j]);
      var d :| 0 <= d < |drivers.value| && drivers.value[d] == job.volumeDrivers[j];
    }
    WorkerReading(job, "", workers[k]);
  }

  /** A job that asks for everything the summary has. */
  function GreedyJob(workers: seq<Worker>, virtualization: string): Resources {
    var drivers := MergedDrivers(workers);
    Resources("", [virtualization], Total(workers, Memory), Total(workers, Vcpus), 0.0, [],
              if drivers.Some? then drivers.value else [])
  }

  lemma {:induction false} GreedyIsPromised(workers: seq<Worker>, virtualization: string)
    requires Concatenation(workers, Virtualization).Some? && virtualization in Concatenation(workers, Virtualization).value
    ensures Qualifies(GreedyJob(workers, virtualization), DecodeCluster("", SummaryOf(workers)))
  {
    var job := GreedyJob(workers, virtualization);
    ListedIffOffered(workers, virtualization);
    forall i | 0 <= i < |job.volumeDrivers| && job.volumeDrivers[i] != ""
      ensures SomeAdvertises(workers, job.volumeDrivers[i])
    {
      MergedIffAdvertised(workers, job.volumeDrivers[i]);
    }
    SummaryReading(job, "", workers);
  }

  lemma {:induction false} GreedyIsNotDelivered(workers: seq<Worker>, virtualization: string)
    requires !SomeHasItAll(workers, virtualization)
    ensures !SomeQualifies(GreedyJob(workers, virtualization), workers)
  {
    forall k | 0 <= k < |workers|
      ensures !Qualifies(GreedyJob(workers, virtualization), DecodeWorker("", workers[k]))
    {
      WorkerReading(GreedyJob(workers, virtualization), "", workers[k]);
      assert !HasItAll(workers, k, virtualization);
    }
  }

  lemma {:induction false} TotalOfTwo(w: Worker, key: Key)
    ensures Total([w, w], key) == ValueOf(w, key) + ValueOf(w, key)
  {
    assert [w, w] == [] + [w] + [w];
    TotalSnoc([], w, key);
    TotalSnoc([] + [w], w, key);
    assert Total([], key) == 0.0;
  }

  lemma {:induction false} PromisedToTwo(w: Worker, job: Resources)
    requires Offers(w, "docker") && job.virtualization == ["docker"] && job.volumeDrivers == []
    requires ValueOf(w, Vcpus) + ValueOf(w, Vcpus) >= job.availableCpu && ValueOf(w, Memory) + ValueOf(w, Memory) >= job.availableMem
    ensures Qualifies(job, DecodeCluster("c", SummaryOf([w, w])))
  {
    TotalOfTwo(w, Memory);
    TotalOfTwo(w, Vcpus);
    assert Offers([w, w][0], "docker");
    SummaryReading(job, "c", [w, w]);
  }

  /** So a summary can promise too much: two workers that are too small each look large enough together. */
  lemma {:induction false} SummaryCanOverpromise() returns (job: Resources, workers: seq<Worker>)
    ensures NonNegative(workers) && Qualifies(job, DecodeCluster("c", SummaryOf(workers))) && !SomeQualifies(job, workers)
  {
    var w := Worker(map[Memory := 1.0, Vcpus := 1.0], map[Virtualization := One("docker")], None, None);
    workers := [w, w];
    job := Resources("j", ["docker"], 2.0, 1.0, 0.0, [], []);
    PromisedToTwo(w, job);
    WorkerReading(job, "", w);
  }

  // ---- Scheduling in a cluster and at the root ----

  /** A worker as its cluster knows it. */
  datatype Node = Node(id: string, worker: Worker)

  function DecodedNodes(nodes: seq<Node>): (r: seq<Resources>)
    ensures |r| == |nodes| && forall i :: 0 <= i < |r| ==> r[i] == DecodeWorker(nodes[i].id, nodes[i].worker)
  {
    seq(|nodes|, i requires 0 <= i < |nodes| => DecodeWorker(nodes[i].id, nodes[i].worker))
  }

  /** The worker offers what the job asks for. */
  predicate CanTake(w: Worker, job: Resources) {
    && job.virtualization != [] && Offers(w, job.virtualization[0])
    && ValueOf(w, Vcpus) >= job.availableCpu && ValueOf(w, Memory) >= job.availableMem
    && forall i :: 0 <= i < |job.volumeDrivers| && job.volumeDrivers[i] != "" ==> Advertises(w, job.volumeDrivers[i])
  }

  /** No worker that can take the job has more memory left over its CPU load. */
  predicate IsBestNode(job: Resources, nodes: seq<Node>, i: nat)
    requires i < |nodes|
  {
    forall j :: 0 <= j < |nodes| && CanTake(nodes[j].worker, job) ==>
      ValueOf(nodes[j].worker, Memory) - ValueOf(nodes[j].worker, CpuPercent)
      <= ValueOf(nodes[i].worker, Memory) - ValueOf(nodes[i].worker, CpuPercent)
  }

  lemma {:induction false} NodeReading(job: Resources, nodes: seq<Node>)
    ensures forall i :: 0 <= i < |nodes| ==> (Qualifies(job, DecodedNodes(nodes)[i]) <==> CanTake(nodes[i].worker, job))
  {
    forall i | 0 <= i < |nodes|
      ensures Qualifies(job, DecodedNodes(nodes)[i]) <==> CanTake(nodes[i].worker, job)
    {
      WorkerReading(job, nodes[i].id, nodes[i].worker);
    }
  }

  lemma {:induction false} BestOfNodes(job: Resources, nodes: seq<Node>, i: nat)
    requires i < |nodes|
    requires forall c :: c in DecodedNodes(nodes) && Qualifies(job, c) ==>
               c.availableMem - c.cpuPercent <= DecodedNodes(nodes)[i].availableMem - DecodedNodes(nodes)[i].cpuPercent
    ensures IsBestNode(job, nodes, i)
  {
    NodeReading(job, nodes);
    forall j | 0 <= j < |nodes| && CanTake(nodes[j].worker, job)
      ensures ValueOf(nodes[j].worker, Memory) - ValueOf(nodes[j].worker, CpuPercent)
              <= ValueOf(nodes[i].worker, Memory) - ValueOf(nodes[i].worker, CpuPercent)
    {
      assert DecodedNodes(nodes)[j] in DecodedNodes(nodes);
    }
  }

  /** In a cluster, a worker is found exactly if one can take the job, and it is a best one of those. */
  method ScheduleAtCluster(job: Resources, nodes: seq<Node>) returns (r: Choice)
    ensures r.Chosen? <==> exists i :: 0 <= i < |nodes| && CanTake(nodes[i].worker, job)
    ensures r.Chosen? ==> exists i :: 0 <= i < |nodes| && r.candidate == DecodeWorker(nodes[i].id, nodes[i].worker)
                                      && CanTake(nodes[i].worker, job) && IsBestNode(job, nodes, i)
  {
    r := Calculate(job, DecodedNodes(nodes));
    NodeReading(job, nodes);
    if r.Chosen? {
      var i :| 0 <= i < |nodes| && DecodedNodes(nodes)[i] == r.candidate;
      BestOfNodes(job, nodes, i);
    } else {
      assert forall i :: 0 <= i < |nodes| ==> DecodedNodes(nodes)[i] in DecodedNodes(nodes);
    }
  }

  /** A cluster as the root knows it. */
  datatype Cluster = Cluster(id: string, workers: seq<Worker>)

  function Summarised(c: Cluster): Resources {
    DecodeCluster(c.id, SummaryOf(c.workers))
  }

  function Decoded(clusters: seq<Cluster>): (r: seq<Resources>)
    ensures |r| == |clusters| && forall i :: 0 <= i < |r| ==> r[i] == Summarised(clusters[i])
  {
    seq(|clusters|, i requires 0 <= i < |clusters| => Summarised(clusters[i]))
  }

  /** Some worker of some cluster can take the job. */
  predicate Placeable(job: Resources, clusters: seq<Cluster>) {
    exists i :: 0 <= i < |clusters| && SomeQualifies(job, clusters[i].workers)
  }

  /** What a cluster reports and the root decodes. */
  method SummariseCluster(a: Aggregator, c: Cluster) returns (r: Resources)
    modifies a
    ensures r == Summarised(c)
  {
    var s := a.AggregateWorkers(c.workers);
    r := DecodeCluster(c.id, s);
  }

  lemma {:induction false} PlaceableIsSeen(job: Resources, clusters: seq<Cluster>) returns (c: Resources)
    requires Placeable(job, clusters) && forall i :: 0 <= i < |clusters| ==> NonNegative(clusters[i].workers)
    ensures c in Decoded(clusters) && Qualifies(job, c)
  {
    var i :| 0 <= i < |clusters| && SomeQualifies(job, clusters[i].workers);
    var k :| 0 <= k < |clusters[i].workers| && Qualifies(job, DecodeWorker("", clusters[i].workers[k]));
    SummaryNeverHides(job, clusters[i].id, clusters[i].workers, k, "");
    c := Decoded(clusters)[i];
  }

  /** The memory of all workers, less the mean of their non-zero CPU loads. */
  function Headroom(c: Cluster): real {
    Total(c.workers, Memory) - Average(c.workers, CpuPercent)
  }

  predicate IsBestFor(job: Resources, clusters: seq<Cluster>, i: nat)
    requires i < |clusters|
  {
    forall j :: 0 <= j < |clusters| && Qualifies(job, Summarised(clusters[j])) ==> Headroom(clusters[j]) <= Headroom(clusters[i])
  }

  lemma {:induction false} SummaryHasHeadroom(c: Cluster)
    ensures Summarised(c).availableMem - Summarised(c).cpuPercent == Headroom(c)
  {
  }

  lemma {:induction false} BestOfDecoded(job: Resources, clusters: seq<Cluster>, i: nat)
    requires i < |clusters|
    requires forall c :: c in Decoded(clusters) && Qualifies(job, c) ==>
               c.availableMem - c.cpuPercent <= Decoded(clusters)[i].availableMem - Decoded(clusters)[i].cpuPercent
    ensures IsBestFor(job, clusters, i)
  {
    SummaryHasHeadroom(clusters[i]);
    forall j | 0 <= j < |clusters| && Qualifies(job, Summarised(clusters[j]))
      ensures Headroom(clusters[j]) <= Headroom(clusters[i])
    {
      assert Decoded(clusters)[j] in Decoded(clusters);
      SummaryHasHeadroom(clusters[j]);
    }
  }

  /**
   Scheduling over summaries alone finds a cluster whenever a worker is able: one with the most memory left over its CPU load
   among those that seem able.
   */
  method ScheduleAtRoot(job: Resources, clusters: seq<Cluster>) returns (r: Choice)
    requires forall i :: 0 <= i < |clusters| ==> NonNegative(clusters[i].workers)
    ensures Placeable(job, clusters) ==> r.Chosen?
    ensures r.Chosen? ==> r.candidate in Decoded(clusters) && Qualifies(job, r.candidate)
    ensures r.Chosen? ==> exists i :: 0 <= i < |clusters| && r.candidate == Summarised(clusters[i]) && IsBestFor(job, clusters, i)
  {
    r := Calculate(job, Decoded(clusters));
    if r.Chosen? {
      var i :| 0 <= i < |clusters| && Decoded(clusters)[i] == r.candidate;
      BestOfDecoded(job, clusters, i);
    }
    if Placeable(job, clusters) {
      var seen := PlaceableIsSeen(job, clusters);
    }
  }
}
