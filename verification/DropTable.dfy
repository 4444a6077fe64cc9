/** Weighted drops and reserved supply of a pack definition.
    (packages/packs-engine/src/rng.ts, packages/packs-engine/src/pack-definition.ts) */
module DropTables {
  import opened Prelude

  const MAX_DROP_TABLE_ENTRIES := 50
  const MAX_ITEMS_PER_PACK := 20
  const MIN_DROP_WEIGHT: real := 1.0
  const MAX_DROP_WEIGHT: real := 10_000.0

  /** The number of values a 53-bit roll can take. */
  const ROLLS: nat := 0x20_0000_0000_0000

  type Roll = r: nat | r < ROLLS witness 0

  datatype DropEntry = DropEntry(seedId: string, weight: real)

  datatype PackDefinition = PackDefinition(
    collectionId: string, name: string, dropTable: seq<DropEntry>, itemsPerPack: int, maxSupply: int)

  predicate ValidEntry(e: DropEntry) {
    e.seedId != "" && MIN_DROP_WEIGHT <= e.weight <= MAX_DROP_WEIGHT
  }

  ghost predicate ValidTable(table: seq<DropEntry>) {
    && 1 <= |table| <= MAX_DROP_TABLE_ENTRIES
    && (forall e :: e in table ==> ValidEntry(e))
    && forall i, j :: 0 <= i < j < |table| ==> table[i].seedId != table[j].seedId
  }

  ghost predicate ValidDefinition(d: PackDefinition) {
    && d.collectionId != "" && d.name != ""
    && 1 <= d.itemsPerPack <= MAX_ITEMS_PER_PACK && d.maxSupply >= 0
    && ValidTable(d.dropTable)
  }

  /** The weight of the first `k` entries. */
  function Cumulative(table: seq<DropEntry>, k: nat): real
    requires k <= |table|
  {
    if k == 0 then 0.0 else Cumulative(table, k - 1) + table[k - 1].weight
  }

  function TotalWeight(table: seq<DropEntry>): real { Cumulative(table, |table|) }

  ghost predicate PositiveWeights(table: seq<DropEntry>) {
    table != [] && forall e :: e in table ==> e.weight > 0.0
  }

  lemma {:induction false} CumulativeGrows(table: seq<DropEntry>, i: nat, j: nat)
    requires PositiveWeights(table) && i < j <= |table|
    ensures Cumulative(table, i) < Cumulative(table, j)
    decreases j
  {
    assert table[j - 1] in table;
    if i < j - 1 { CumulativeGrows(table, i, j - 1); }
  }

  /** The checks in their order; the running total can never fail the last of them. */
  method AssertValidPackDefinition(d: PackDefinition) returns (r: Result<()>)
    ensures r.Done? <==> ValidDefinition(d)
  {
    if d.collectionId == "" { return Error("collectionId is required"); }
    if d.name == "" { return Error("name is required"); }
    if d.itemsPerPack < 1 || d.itemsPerPack > MAX_ITEMS_PER_PACK { return Error("itemsPerPack out of range"); }
    if d.maxSupply < 0 { return Error("maxSupply must be non-negative"); }
    var table := d.dropTable;
    if |table| == 0 { return Error("dropTable cannot be empty"); }
    if |table| > MAX_DROP_TABLE_ENTRIES { return Error("dropTable too long"); }
    var seenSeeds: set<string> := {};
    var totalWeight := 0.0;
    for i := 0 to |table|
      invariant seenSeeds == set k | 0 <= k < i :: table[k].seedId
      invariant forall k :: 0 <= k < i ==> ValidEntry(table[k])
      invariant forall k, l :: 0 <= k < l < i ==> table[k].seedId != table[l].seedId
      invariant totalWeight == Cumulative(table, i) && totalWeight >= i as real
    {
      var entry := table[i];
      assert entry in table;
      if !ValidEntry(entry) { return Error("invalid drop entry"); }
      if entry.seedId in seenSeeds { return Error("Duplicate seedId in dropTable"); }
      seenSeeds := seenSeeds + {entry.seedId};
      totalWeight := totalWeight + entry.weight;
    }
    if totalWeight <= 0.0 { return Error("dropTable total weight must be greater than zero"); }
    return Done(());
  }

  lemma ValidTableIsPositive(table: seq<DropEntry>)
    requires ValidTable(table)
    ensures PositiveWeights(table) && TotalWeight(table) > 0.0
  {
    CumulativeGrows(table, 0, |table|);
  }

  // ---- One roll ----

  /** Where a roll falls on the scale from 0 to the total weight, in exact arithmetic. */
  function Point(table: seq<DropEntry>, roll: Roll): real {
    roll as real / ROLLS as real * TotalWeight(table)
  }

  /** The first entry whose cumulative weight exceeds the point; the last entry when there is none. */
  function Drawn(table: seq<DropEntry>, x: real, k: nat): (d: nat)
    requires k < |table|
    ensures k <= d < |table|
    decreases |table| - k
  {
    if x < Cumulative(table, k + 1) || k == |table| - 1 then k else Drawn(table, x, k + 1)
  }

  function DrawnSeeds(table: seq<DropEntry>, rng: nat -> Roll, n: nat): (s: seq<string>)
    requires table != []
    ensures |s| == n
  {
    if n == 0 then []
    else DrawnSeeds(table, rng, n - 1) + [table[Drawn(table, Point(table, rng(n - 1)), 0)].seedId]
  }

  /** The draw of `itemCount` seeds; `rng` stands for SHA-256 over the seed text and the item's index. */
  method ResolveDropTable(table: seq<DropEntry>, itemCount: nat, rng: nat -> Roll) returns (r: Result<seq<string>>)
    ensures r.Done? <==> table != [] && TotalWeight(table) > 0.0
    ensures r.Done? ==> r.value == DrawnSeeds(table, rng, itemCount)
  {
    if |table| == 0 { return Error("dropTable cannot be empty"); }
    var totalWeight := 0.0;
    for i := 0 to |table|
      invariant totalWeight == Cumulative(table, i)
    {
      totalWeight := totalWeight + table[i].weight;
    }
    if totalWeight <= 0.0 { return Error("totalWeight must be greater than 0"); }
    var results: seq<string> := [];
    for i := 0 to itemCount
      invariant results == DrawnSeeds(table, rng, i)
    {
      var roll := rng(i) as real / ROLLS as real * totalWeight;
      var cumulative := 0.0;
      var selected := false;
      for k := 0 to |table|
        invariant !selected && cumulative == Cumulative(table, k) && results == DrawnSeeds(table, rng, i)
        invariant k < |table| ==> Drawn(table, roll, 0) == Drawn(table, roll, k)
        invariant k == |table| ==> Drawn(table, roll, 0) == |table| - 1
      {
        cumulative := cumulative + table[k].weight;
        if roll < cumulative {
          results := results + [table[k].seedId];
          selected := true;
          break;
        }
      }
      if !selected { results := results + [table[|table| - 1].seedId]; }
      assert roll == Point(table, rng(i));
      assert results == DrawnSeeds(table, rng, i) + [table[Drawn(table, roll, 0)].seedId];
    }
    return Done(results);
  }

  /** With positive weights a roll lands in exactly one interval, and that entry is drawn; the fallback to
      the last entry is never what decides. */
  lemma {:induction false} RollLandsInOneInterval(table: seq<DropEntry>, roll: Roll, k: nat)
    requires PositiveWeights(table) && k < |table|
    ensures TotalWeight(table) > 0.0 && 0.0 <= Point(table, roll) < TotalWeight(table)
    ensures Drawn(table, Point(table, roll), 0) == k <==>
      Cumulative(table, k) <= Point(table, roll) < Cumulative(table, k + 1)
  {
    CumulativeGrows(table, 0, |table|);
    PointOnScale(table, roll);
    DrawnInterval(table, Point(table, roll), 0);
    var d := Drawn(table, Point(table, roll), 0);
    if d < k && d + 1 < k { CumulativeGrows(table, d + 1, k); }
    if k < d && k + 1 < d { CumulativeGrows(table, k + 1, d); }
  }

  lemma PointOnScale(table: seq<DropEntry>, roll: Roll)
    requires TotalWeight(table) > 0.0
    ensures 0.0 <= Point(table, roll) < TotalWeight(table)
  {
    var fraction := roll as real / ROLLS as real;
    assert 0.0 <= fraction < 1.0;
    Scaled(fraction, TotalWeight(table));
  }

  lemma Scaled(fraction: real, total: real)
    requires 0.0 <= fraction < 1.0 && total > 0.0
    ensures 0.0 <= fraction * total < total
  {}

  lemma {:induction false} DrawnInterval(table: seq<DropEntry>, x: real, k: nat)
    requires PositiveWeights(table) && k < |table| && Cumulative(table, k) <= x < TotalWeight(table)
    ensures var d := Drawn(table, x, k); k <= d < |table| && Cumulative(table, d) <= x < Cumulative(table, d + 1)
    decreases |table| - k
  {
    if k < |table| - 1 && x >= Cumulative(table, k + 1) { DrawnInterval(table, x, k + 1); }
  }

  // ---- How many rolls select an entry ----

  function Ceil(x: real): int { -((-x).Floor) }

  ghost function RollsFor(table: seq<DropEntry>, k: nat): set<Roll>
    requires table != []
  {
    set roll: Roll | Drawn(table, Point(table, roll), 0) == k
  }

  /** The roll at which entry `k` begins, as a real number. */
  function Bound(table: seq<DropEntry>, k: nat): real
    requires k <= |table| && TotalWeight(table) > 0.0
  {
    Cumulative(table, k) * ROLLS as real / TotalWeight(table)
  }

  lemma BoundComparesLikePoint(table: seq<DropEntry>, k: nat, roll: Roll)
    requires k <= |table| && TotalWeight(table) > 0.0
    ensures Cumulative(table, k) <= Point(table, roll) <==> Bound(table, k) <= roll as real
  {
    var t, n, r, c := TotalWeight(table), ROLLS as real, roll as real, Cumulative(table, k);
    assert Point(table, roll) * n == r * t by { assert r / n * n == r; }
    assert Bound(table, k) * t == c * n;
    Scales(c, Point(table, roll), n);
    Scales(Bound(table, k), r, t);
  }

  lemma Scales(a: real, b: real, s: real)
    requires s > 0.0
    ensures a <= b <==> a * s <= b * s
  {}

  /** The whole numbers from `lo` up to but not including `hi`. */
  ghost function Between(lo: nat, hi: nat): (s: set<nat>)
    ensures forall r: nat :: r in s <==> lo <= r < hi
    ensures lo <= hi ==> |s| == hi - lo
  {
    if lo >= hi then {} else Between(lo, hi - 1) + {hi - 1}
  }

  lemma Positive(w: real, n: real, t: real)
    requires w > 0.0 && n > 0.0 && t > 0.0
    ensures w * n / t > 0.0
  {
    assert w * n > 0.0;
  }

  lemma CeilCompares(x: real, n: int)
    ensures x <= n as real <==> Ceil(x) <= n
    ensures x <= Ceil(x) as real < x + 1.0
  {}

  lemma BoundInRange(table: seq<DropEntry>, k: nat)
    requires PositiveWeights(table) && k <= |table| && TotalWeight(table) > 0.0
    ensures 0.0 <= Bound(table, k) <= ROLLS as real
  {
    if k > 0 { CumulativeGrows(table, 0, k); }
    if k < |table| { CumulativeGrows(table, k, |table|); }
    Proportion(Cumulative(table, k), TotalWeight(table), ROLLS as real);
  }

  lemma Proportion(c: real, t: real, n: real)
    requires 0.0 <= c <= t && t > 0.0 && n > 0.0
    ensures 0.0 <= c * n / t <= n
  {
    var b := c * n / t;
    assert b * t == c * n;
    assert c * n <= t * n by { Scales(c, t, n); }
    Scales(0.0, b, t);
    Scales(b, n, t);
  }

  lemma BoundWidth(table: seq<DropEntry>, k: nat)
    requires k < |table| && TotalWeight(table) > 0.0
    ensures Bound(table, k + 1) - Bound(table, k) == table[k].weight * ROLLS as real / TotalWeight(table)
  {
    SharesAdd(ROLLS as real, Cumulative(table, k), table[k].weight, TotalWeight(table));
  }

  lemma SharesAdd(d: real, c: real, w: real, t: real)
    requires t > 0.0
    ensures (c + w) * d / t == c * d / t + w * d / t
    ensures d * (c + w) / t == d * c / t + d * w / t
  {
    assert (c + w) * d == c * d + w * d;
    assert d * (c + w) == d * c + d * w;
  }

  /** Of all 53-bit rolls, the number that select entry `k` differs from its exact share by less than one. */
  lemma DropsAreProportional(table: seq<DropEntry>, k: nat)
    requires PositiveWeights(table) && k < |table| && TotalWeight(table) > 0.0
    ensures var share := table[k].weight * ROLLS as real / TotalWeight(table);
      share - 1.0 < |RollsFor(table, k)| as real < share + 1.0
  {
    BoundInRange(table, k);
    BoundInRange(table, k + 1);
    BoundWidth(table, k);
    assert table[k] in table;
    Positive(table[k].weight, ROLLS as real, TotalWeight(table));
    var lo, hi := Ceil(Bound(table, k)), Ceil(Bound(table, k + 1));
    CeilCompares(Bound(table, k), 0);
    CeilCompares(Bound(table, k), ROLLS);
    CeilCompares(Bound(table, k + 1), ROLLS);
    CeilCompares(Bound(table, k), hi);
    forall roll: Roll ensures roll in RollsFor(table, k) <==> lo <= roll < hi {
      RollLandsInOneInterval(table, roll, k);
      BoundComparesLikePoint(table, k, roll);
      BoundComparesLikePoint(table, k + 1, roll);
      CeilCompares(Bound(table, k), roll);
      CeilCompares(Bound(table, k + 1), roll);
    }
    assert RollsFor(table, k) == Between(lo, hi);
  }

  // ---- Reserved supply ----

  /** Shares rounded up, in table order. */
  function Reserved(table: seq<DropEntry>, demand: int, k: nat): int
    requires k <= |table| && TotalWeight(table) > 0.0
  {
    if k == 0 then 0 else Reserved(table, demand, k - 1) + Share(table, demand, k - 1)
  }

  /** The part of the demand that falls to weight `w`. */
  function Portion(demand: int, w: real, total: real): real
    requires total > 0.0
  {
    demand as real * w / total
  }

  function Share(table: seq<DropEntry>, demand: int, k: nat): int
    requires k < |table| && TotalWeight(table) > 0.0
  {
    Ceil(Portion(demand, table[k].weight, TotalWeight(table)))
  }

  /** A seed's share is the least whole number that is no less than the demand times its part of the weight. */
  lemma ShareIsProportional(table: seq<DropEntry>, demand: nat, k: nat)
    requires k < |table| && TotalWeight(table) > 0.0
    ensures var s, t := Share(table, demand, k), TotalWeight(table);
      (s - 1) as real * t < demand as real * table[k].weight <= s as real * t
  {
    hide TotalWeight, Portion, Ceil;
    CeilOfPortion(demand, table[k].weight, TotalWeight(table));
  }

  lemma CeilOfPortion(demand: nat, w: real, t: real)
    requires t > 0.0
    ensures var s := Ceil(Portion(demand, w, t)); (s - 1) as real * t < demand as real * w <= s as real * t
  {
    hide Ceil, Portion;
    var x := Portion(demand, w, t);
    CeilIsLeast(x);
    PortionTimesTotal(demand, w, t);
    BetweenMultiples((Ceil(x) - 1) as real, x, Ceil(x) as real, t, demand as real * w);
  }

  lemma BetweenMultiples(a: real, x: real, b: real, t: real, product: real)
    requires t > 0.0 && a < x <= b && x * t == product
    ensures a * t < product <= b * t
  {
    TimesPositive(a, x, t);
    TimesPositive(x, b, t);
  }

  lemma PortionTimesTotal(demand: nat, w: real, t: real)
    requires t > 0.0
    ensures Portion(demand, w, t) * t == demand as real * w
  {}

  lemma CeilIsLeast(x: real)
    ensures (Ceil(x) - 1) as real < x <= Ceil(x) as real
  {}

  lemma TimesPositive(a: real, b: real, t: real)
    requires t > 0.0
    ensures a < b ==> a * t < b * t
    ensures a <= b ==> a * t <= b * t
  {}

  lemma PortionsAdd(demand: int, c: real, w: real, t: real)
    requires t > 0.0
    ensures Portion(demand, c + w, t) == Portion(demand, c, t) + Portion(demand, w, t)
  {
    SharesAdd(demand as real, c, w, t);
  }

  lemma PortionFacts(demand: nat, w: real, t: real)
    requires t > 0.0 && w >= 0.0
    ensures Portion(demand, w, t) >= 0.0 && Portion(demand, 0.0, t) == 0.0 && Portion(demand, t, t) == demand as real
  {
    assert demand as real * w >= 0.0;
  }

  lemma {:induction false} ReservedCoversShares(table: seq<DropEntry>, demand: nat, k: nat)
    requires k <= |table| && TotalWeight(table) > 0.0
    ensures var exact := Portion(demand, Cumulative(table, k), TotalWeight(table));
      && exact <= Reserved(table, demand, k) as real <= exact + k as real
      && (k > 0 ==> Reserved(table, demand, k) as real < exact + k as real)
  {
    hide Portion, Ceil;
    var t := TotalWeight(table);
    if k == 0 {
      PortionFacts(demand, 0.0, t);
    } else {
      ReservedCoversShares(table, demand, k - 1);
      CeilCompares(Portion(demand, table[k - 1].weight, t), 0);
      PortionsAdd(demand, Cumulative(table, k - 1), table[k - 1].weight, t);
    }
  }

  /** Exactly the first `n` seeds, each with its share. */
  ghost predicate ReservesShares(m: map<string, int>, table: seq<DropEntry>, demand: int, n: nat)
    requires n <= |table| && TotalWeight(table) > 0.0
  {
    && (forall id :: id in m ==> exists k :: 0 <= k < n && table[k].seedId == id)
    && forall k :: 0 <= k < n ==> table[k].seedId in m && m[table[k].seedId] == Share(table, demand, k)
  }

  lemma NoShares(table: seq<DropEntry>, demand: int)
    requires TotalWeight(table) > 0.0
    ensures ReservesShares(map[], table, demand, 0)
  {}

  lemma OneMoreShare(m: map<string, int>, table: seq<DropEntry>, demand: int, n: nat)
    requires ValidTable(table) && n < |table| && TotalWeight(table) > 0.0 && ReservesShares(m, table, demand, n)
    ensures Share(table, demand, n) == Ceil(Portion(demand, table[n].weight, TotalWeight(table)))
    ensures ReservesShares(m[table[n].seedId := Share(table, demand, n)], table, demand, n + 1)
  {
    hide Cumulative, Portion, Ceil;
    var m' := m[table[n].seedId := Share(table, demand, n)];
    forall id | id in m' ensures exists k :: 0 <= k < n + 1 && table[k].seedId == id {
      if id in m {
        var k :| 0 <= k < n && table[k].seedId == id;
        assert table[k].seedId == id;
      } else {
        assert table[n].seedId == id;
      }
    }
  }

  /** Each seed gets its share rounded up; together they cover the demand and exceed it by less than one
      unit per entry. An uncapped definition reserves nothing. */
  method ComputeReservedSupply(d: PackDefinition) returns (r: Result<map<string, int>>)
    ensures r.Done? <==> ValidDefinition(d)
    ensures r.Done? && d.maxSupply == 0 ==> r.value == map[]
    ensures r.Done? && d.maxSupply > 0 ==>
      TotalWeight(d.dropTable) > 0.0 && ReservesShares(r.value, d.dropTable, d.maxSupply * d.itemsPerPack, |d.dropTable|)
  {
    hide Cumulative, Portion, Ceil, Share, ValidTable, ReservesShares;
    var valid := AssertValidPackDefinition(d);
    if valid.Error? { return Error(valid.message); }
    if d.maxSupply == 0 { return Done(map[]); }
    var table := d.dropTable;
    ValidTableIsPositive(table);
    var totalWeight := TotalWeight(table);
    var totalDemand := d.maxSupply * d.itemsPerPack;
    var reservedSupply: map<string, int> := map[];
    NoShares(table, totalDemand);
    for i := 0 to |table|
      invariant ReservesShares(reservedSupply, table, totalDemand, i)
    {
      OneMoreShare(reservedSupply, table, totalDemand, i);
      reservedSupply := reservedSupply[table[i].seedId := Ceil(Portion(totalDemand, table[i].weight, totalWeight))];
    }
    return Done(reservedSupply);
  }

  /** Demand is covered, and over-reserved by at most one unit less than there are entries. */
  lemma ReservationCoversDemand(table: seq<DropEntry>, demand: nat)
    requires ValidTable(table) && TotalWeight(table) > 0.0
    ensures demand <= Reserved(table, demand, |table|) <= demand + |table| - 1
    ensures forall k :: 0 <= k < |table| ==> Share(table, demand, k) >= 0
  {
    hide Portion, Ceil;
    var t := TotalWeight(table);
    ReservedCoversShares(table, demand, |table|);
    PortionFacts(demand, t, t);
    assert Reserved(table, demand, |table|) as real < (demand + |table|) as real;
    forall k | 0 <= k < |table| ensures Share(table, demand, k) >= 0 {
      assert table[k] in table;
      PortionFacts(demand, table[k].weight, t);
      CeilCompares(Portion(demand, table[k].weight, t), 0);
    }
  }

  // ---- Can the seeds afford it ----

  datatype SeedSnapshot = SeedSnapshot(seedId: string, seedTxId: string, maxSupply: int, distributed: int, reserved: int)

  datatype Demand = Demand(reserved: int, remainingBefore: Option<int>, remainingAfter: Option<int>)

  function FindSnapshot(snapshots: seq<SeedSnapshot>, seedId: string): (r: Option<SeedSnapshot>)
    ensures r.Some? ==> r.value in snapshots && r.value.seedId == seedId
    ensures r.None? ==> forall s :: s in snapshots ==> s.seedId != seedId
  {
    if snapshots == [] then None
    else if snapshots[0].seedId == seedId then Some(snapshots[0])
    else FindSnapshot(snapshots[1..], seedId)
  }

  function Remaining(s: SeedSnapshot): int { Max(0, s.maxSupply - s.distributed - s.reserved) }

  /** A snapshot exists, and its supply is unlimited or what remains covers the share. */
  ghost predicate Affordable(snapshots: seq<SeedSnapshot>, seedId: string, share: int) {
    var s := FindSnapshot(snapshots, seedId);
    s.Some? && (s.value.maxSupply == 0 || share <= Remaining(s.value))
  }

  function DemandOn(s: SeedSnapshot, share: int): Demand {
    if s.maxSupply == 0 then Demand(share, None, None) else Demand(share, Some(Remaining(s)), Some(Remaining(s) - share))
  }

  lemma DemandShowsAffordable(snapshots: seq<SeedSnapshot>, seedId: string, share: int)
    ensures FindSnapshot(snapshots, seedId).None? ==> !Affordable(snapshots, seedId, share)
    ensures FindSnapshot(snapshots, seedId).Some? ==>
      var demand := DemandOn(FindSnapshot(snapshots, seedId).value, share);
      && demand.reserved == share
      && (Affordable(snapshots, seedId, share) <==> demand.remainingAfter.Some? ==> demand.remainingAfter.value >= 0)
  {
    hide FindSnapshot, Remaining;
  }

  /** The first snapshot of the seed. */
  ghost predicate FirstFor(snapshots: seq<SeedSnapshot>, seedId: string, i: int) {
    && 0 <= i < |snapshots| && snapshots[i].seedId == seedId
    && forall j :: 0 <= j < i ==> snapshots[j].seedId != seedId
  }

  lemma {:induction false} FirstSnapshotCounts(snapshots: seq<SeedSnapshot>, seedId: string, i: int)
    requires FirstFor(snapshots, seedId, i)
    ensures FindSnapshot(snapshots, seedId) == Some(snapshots[i])
  {
    if i > 0 {
      assert snapshots[0].seedId != seedId;
      assert forall j :: 0 <= j < i - 1 ==> snapshots[1..][j] == snapshots[j + 1];
      FirstSnapshotCounts(snapshots[1..], seedId, i - 1);
    }
  }

  lemma {:induction false} SomeIsFirst(snapshots: seq<SeedSnapshot>, seedId: string, k: nat)
    requires k < |snapshots| && snapshots[k].seedId == seedId
    ensures exists i :: FirstFor(snapshots, seedId, i)
  {
    if FirstFor(snapshots, seedId, k) {
    } else {
      var j :| 0 <= j < k && snapshots[j].seedId == seedId;
      SomeIsFirst(snapshots, seedId, j);
    }
  }

  /** The first snapshot counts, and there the share must fit beside what is out and what is reserved. */
  lemma AffordableIffItFits(snapshots: seq<SeedSnapshot>, seedId: string, share: int)
    ensures Affordable(snapshots, seedId, share) <==> exists i ::
      && FirstFor(snapshots, seedId, i)
      && (snapshots[i].maxSupply == 0 || share <= 0 ||
          snapshots[i].distributed + snapshots[i].reserved + share <= snapshots[i].maxSupply)
  {
    if k: nat :| k < |snapshots| && snapshots[k].seedId == seedId {
      SomeIsFirst(snapshots, seedId, k);
      var i :| FirstFor(snapshots, seedId, i);
      FirstSnapshotCounts(snapshots, seedId, i);
      assert forall j :: FirstFor(snapshots, seedId, j) ==> j == i;
    }
  }

  /** What a demand shows of a limited seed: what is left of it, never less than nothing, before and after. */
  lemma DemandShowsWhatIsLeft(s: SeedSnapshot, share: int)
    ensures var demand := DemandOn(s, share);
      if s.maxSupply == 0 then demand.remainingBefore == None && demand.remainingAfter == None
      else
        && demand.remainingBefore.Some? && demand.remainingAfter == Some(demand.remainingBefore.value - share)
        && demand.remainingBefore.value >= 0
        && s.distributed + s.reserved + demand.remainingBefore.value >= s.maxSupply
        && (demand.remainingBefore.value > 0 ==> s.distributed + s.reserved + demand.remainingBefore.value == s.maxSupply)
  {
    assert Remaining(s) == Max(0, s.maxSupply - s.distributed - s.reserved);
  }

  /** The demands of the first `n` entries, all of them affordable, each on the snapshot of its seed. */
  ghost predicate DemandsShown(snapshots: seq<SeedSnapshot>, reserved: map<string, int>, table: seq<DropEntry>,
                               demands: map<string, Demand>, n: nat)
    requires n <= |table|
  {
    && (forall k :: 0 <= k < n ==>
          && table[k].seedId in reserved
          && Affordable(snapshots, table[k].seedId, reserved[table[k].seedId])
          && table[k].seedId in demands && demands[table[k].seedId].reserved == reserved[table[k].seedId])
    && forall id :: id in demands ==>
      && FindSnapshot(snapshots, id).Some?
      && demands[id] == DemandOn(FindSnapshot(snapshots, id).value, demands[id].reserved)
      && (demands[id].remainingAfter.Some? ==> demands[id].remainingAfter.value >= 0)
  }

  lemma OneMoreDemand(snapshots: seq<SeedSnapshot>, reserved: map<string, int>, table: seq<DropEntry>,
                      demands: map<string, Demand>, n: nat)
    requires n < |table| && DemandsShown(snapshots, reserved, table, demands, n)
    requires table[n].seedId in reserved && FindSnapshot(snapshots, table[n].seedId).Some?
    requires Affordable(snapshots, table[n].seedId, reserved[table[n].seedId])
    ensures var id := table[n].seedId;
      DemandsShown(snapshots, reserved, table,
                   demands[id := DemandOn(FindSnapshot(snapshots, id).value, reserved[id])], n + 1)
  {
    hide FindSnapshot, Affordable, DemandOn;
    DemandShowsAffordable(snapshots, table[n].seedId, reserved[table[n].seedId]);
  }

  lemma NoDemand(snapshots: seq<SeedSnapshot>, reserved: map<string, int>, table: seq<DropEntry>)
    ensures DemandsShown(snapshots, reserved, table, map[], 0)
  {}

  /** Succeeds exactly when every seed of the table can afford its share, and then never leaves a seed
      with less than nothing. */
  method ValidateReservationDemand(d: PackDefinition, snapshots: seq<SeedSnapshot>) returns (r: Result<map<string, Demand>>)
    ensures r.Done? <==> ValidDefinition(d) && (d.maxSupply > 0 ==>
      TotalWeight(d.dropTable) > 0.0 &&
      forall k :: 0 <= k < |d.dropTable| ==>
        Affordable(snapshots, d.dropTable[k].seedId, Share(d.dropTable, d.maxSupply * d.itemsPerPack, k)))
    ensures r.Done? ==> forall id :: id in r.value ==>
      && FindSnapshot(snapshots, id).Some?
      && r.value[id] == DemandOn(FindSnapshot(snapshots, id).value, r.value[id].reserved)
      && (r.value[id].remainingAfter.Some? ==> r.value[id].remainingAfter.value >= 0)
    ensures r.Done? && d.maxSupply > 0 ==>
      TotalWeight(d.dropTable) > 0.0 &&
      forall k :: 0 <= k < |d.dropTable| ==>
        && d.dropTable[k].seedId in r.value
        && r.value[d.dropTable[k].seedId].reserved == Share(d.dropTable, d.maxSupply * d.itemsPerPack, k)
  {
    hide ValidTable, Share, TotalWeight, FindSnapshot, DemandOn, Affordable;
    var reservedSupply := ComputeReservedSupply(d);
    if reservedSupply.Error? { return Error(reservedSupply.message); }
    if d.maxSupply == 0 { return Done(map[]); }
    var table, shares := d.dropTable, reservedSupply.value;
    var demands: map<string, Demand> := map[];
    NoDemand(snapshots, shares, table);
    for i := 0 to |table|
      invariant DemandsShown(snapshots, shares, table, demands, i)
    {
      var seedId := table[i].seedId;
      var reserved := shares[seedId];
      var snapshot := FindSnapshot(snapshots, seedId);
      DemandShowsAffordable(snapshots, seedId, reserved);
      if snapshot.None? { return Error("Seed snapshot not found"); }
      var demand := DemandOn(snapshot.value, reserved);
      if demand.remainingAfter.Some? && demand.remainingAfter.value < 0 { return Error("not enough supply"); }
      OneMoreDemand(snapshots, shares, table, demands, i);
      demands := demands[seedId := demand];
    }
    return Done(demands);
  }
}
