/** Planning the opening of a batch of packs against supply and reservations.
    (packages/packs-engine/src/open-plan.ts) */
module PackPlans {
  import opened Prelude
  import opened OrderedMaps
  import opened DropTables

  const MAX_PACK_OPEN_BATCH := 50

  datatype SkipReason = MissingSeed | InsufficientSupply | InsufficientReservation

  datatype Selection = Selection(
    packIndex: nat, selectedSeedIds: seq<string>, delivered: bool, reason: Option<SkipReason>)

  datatype Item = Item(seedId: string, seedTxId: string, quantity: nat)

  datatype Consumption = Consumption(seedId: string, quantity: nat)

  datatype Plan = Plan(
    deliveredPacks: nat, skippedPacks: nat, items: seq<Item>, reservationConsumption: seq<Consumption>,
    selections: seq<Selection>)

  /** What the plan is made against: the last snapshot of each seed, and the reservations if there are any. */
  datatype Stock = Stock(seeds: map<string, SeedSnapshot>, reservations: Option<map<string, int>>)

  /** A seed roll for every pack and item; it stands for SHA-256 over the opening's context. */
  type Dice = (nat, nat) -> Roll

  function PackSeeds(d: PackDefinition, dice: Dice, packIndex: nat): seq<string>
    requires d.dropTable != [] && d.itemsPerPack >= 0
  {
    DrawnSeeds(d.dropTable, item => dice(packIndex, item), d.itemsPerPack)
  }

  function Snapshots(snapshots: seq<SeedSnapshot>): map<string, SeedSnapshot> {
    if snapshots == [] then map[]
    else Snapshots(snapshots[..|snapshots| - 1])[snapshots[|snapshots| - 1].seedId := snapshots[|snapshots| - 1]]
  }

  type Tally = OrderedMap<string, nat>

  function Planned(t: Tally, seedId: string): nat { if seedId in t.values then t.values[seedId] else 0 }

  /** Unlimited supply is a zero maximum. */
  predicate Capped(stock: Stock, seedId: string) { seedId in stock.seeds && stock.seeds[seedId].maxSupply != 0 }

  function Left(stock: Stock, seedId: string): int
    requires seedId in stock.seeds
  {
    stock.seeds[seedId].maxSupply - stock.seeds[seedId].distributed
  }

  function ReservedFor(stock: Stock, seedId: string): int
    requires stock.reservations.Some?
  {
    if seedId in stock.reservations.value then stock.reservations.value[seedId] else 0
  }

  /** The first seed that cannot be had, given what earlier packs took. Repeats inside one pack are not counted. */
  function Obstacle(stock: Stock, t: Tally, seeds: seq<string>): Option<SkipReason> {
    if seeds == [] then None
    else
      var earlier := Obstacle(stock, t, seeds[..|seeds| - 1]);
      var seedId := seeds[|seeds| - 1];
      if earlier.Some? then earlier
      else if seedId !in stock.seeds then Some(MissingSeed)
      else if Capped(stock, seedId) && Left(stock, seedId) - Planned(t, seedId) < 1 then Some(InsufficientSupply)
      else if stock.reservations.Some? && ReservedFor(stock, seedId) - Planned(t, seedId) < 1 then Some(InsufficientReservation)
      else None
  }

  /** One more of a seed. */
  function Tallied(t: Tally, seedId: string): (r: Tally)
    requires t.Valid()
    ensures r.Valid()
  {
    t.Set(seedId, Planned(t, seedId) + 1)
  }

  function TallySeeds(t: Tally, seeds: seq<string>): (r: Tally)
    requires t.Valid()
    ensures r.Valid()
  {
    if seeds == [] then t
    else
      Tallied(TallySeeds(t, seeds[..|seeds| - 1]), seeds[|seeds| - 1])
  }

  /** What the first `n` packs take, and which of them are delivered. */
  function TallyThrough(d: PackDefinition, stock: Stock, dice: Dice, n: nat): (t: Tally)
    requires d.dropTable != [] && d.itemsPerPack >= 0
    ensures t.Valid()
    decreases n, 0
  {
    if n == 0 then Empty()
    else
      var before := TallyThrough(d, stock, dice, n - 1);
      if Delivered(d, stock, dice, n - 1) then TallySeeds(before, PackSeeds(d, dice, n - 1)) else before
  }

  predicate Delivered(d: PackDefinition, stock: Stock, dice: Dice, p: nat)
    requires d.dropTable != [] && d.itemsPerPack >= 0
    decreases p, 1
  {
    Obstacle(stock, TallyThrough(d, stock, dice, p), PackSeeds(d, dice, p)).None?
  }

  function SelectionOf(d: PackDefinition, stock: Stock, dice: Dice, p: nat): Selection
    requires d.dropTable != [] && d.itemsPerPack >= 0
  {
    var reason := Obstacle(stock, TallyThrough(d, stock, dice, p), PackSeeds(d, dice, p));
    Selection(p, PackSeeds(d, dice, p), reason.None?, reason)
  }

  function DeliveredThrough(d: PackDefinition, stock: Stock, dice: Dice, n: nat): nat
    requires d.dropTable != [] && d.itemsPerPack >= 0
  {
    if n == 0 then 0 else DeliveredThrough(d, stock, dice, n - 1) + if Delivered(d, stock, dice, n - 1) then 1 else 0
  }

  // ---- What the numbers mean ----

  function Count(seeds: seq<string>, seedId: string): nat {
    if seeds == [] then 0
    else Count(seeds[..|seeds| - 1], seedId) + if seeds[|seeds| - 1] == seedId then 1 else 0
  }

  lemma {:induction false} TallyCounts(t: Tally, seeds: seq<string>, seedId: string)
    requires t.Valid()
    ensures Planned(TallySeeds(t, seeds), seedId) == Planned(t, seedId) + Count(seeds, seedId)
  {
    if seeds != [] { TallyCounts(t, seeds[..|seeds| - 1], seedId); }
  }

  /** All quantities added up. */
  function Sum(values: map<string, nat>, keys: seq<string>): nat
    requires forall k :: k in keys ==> k in values
  {
    if keys == [] then 0 else Sum(values, keys[..|keys| - 1]) + values[keys[|keys| - 1]]
  }

  lemma {:induction false} SumIgnoresOthers(values: map<string, nat>, keys: seq<string>, k: string, v: nat)
    requires k !in keys && forall x :: x in keys ==> x in values
    ensures Sum(values[k := v], keys) == Sum(values, keys)
  {
    if keys != [] {
      assert keys[|keys| - 1] in keys;
      SumIgnoresOthers(values, keys[..|keys| - 1], k, v);
    }
  }

  lemma {:induction false} SumOfUpdate(values: map<string, nat>, keys: seq<string>, k: string, v: nat)
    requires k in keys && (forall x :: x in keys ==> x in values)
    requires forall i, j :: 0 <= i < j < |keys| ==> keys[i] != keys[j]
    ensures Sum(values[k := v], keys) == Sum(values, keys) - values[k] + v
  {
    var front, last := keys[..|keys| - 1], keys[|keys| - 1];
    assert keys == front + [last];
    if last == k { SumIgnoresOthers(values, front, k, v); } else { SumOfUpdate(values, front, k, v); }
  }

  lemma AddOne(t: Tally, seedId: string)
    requires t.Valid()
    ensures Sum(Tallied(t, seedId).values, Tallied(t, seedId).keys) == Sum(t.values, t.keys) + 1
  {
    hide Sum;
    if seedId in t.values {
      SumOfUpdate(t.values, t.keys, seedId, t.values[seedId] + 1);
    } else {
      SumOfOneMore(t.values[seedId := 1], t.keys, seedId);
      SumIgnoresOthers(t.values, t.keys, seedId, 1);
    }
  }

  lemma SumOfOneMore(values: map<string, nat>, keys: seq<string>, k: string)
    requires k in values && forall x :: x in keys ==> x in values
    ensures Sum(values, keys + [k]) == Sum(values, keys) + values[k]
  {
    assert (keys + [k])[..|keys + [k]| - 1] == keys;
  }

  lemma {:induction false} TallyAddsUp(t: Tally, seeds: seq<string>)
    requires t.Valid()
    ensures var r := TallySeeds(t, seeds); Sum(r.values, r.keys) == Sum(t.values, t.keys) + |seeds|
  {
    hide Sum;
    if seeds != [] {
      TallyAddsUp(t, seeds[..|seeds| - 1]);
      AddOne(TallySeeds(t, seeds[..|seeds| - 1]), seeds[|seeds| - 1]);
    }
  }

  /** Occurrences of a seed in the delivered packs among the first `n`. */
  function DeliveredCount(d: PackDefinition, stock: Stock, dice: Dice, n: nat, seedId: string): nat
    requires d.dropTable != [] && d.itemsPerPack >= 0
  {
    if n == 0 then 0
    else
      DeliveredCount(d, stock, dice, n - 1, seedId)
      + if Delivered(d, stock, dice, n - 1) then Count(PackSeeds(d, dice, n - 1), seedId) else 0
  }

  lemma NothingPlanned(seedId: string)
    ensures Planned(Empty(), seedId) == 0 && Sum(Empty<string, nat>().values, Empty<string, nat>().keys) == 0
  {}

  lemma PackSize(d: PackDefinition, dice: Dice, p: nat)
    requires d.dropTable != [] && d.itemsPerPack >= 0
    ensures |PackSeeds(d, dice, p)| == d.itemsPerPack
  {}

  lemma OneMorePack(packs: nat, size: nat)
    ensures (packs + 1) * size == packs * size + size
  {}

  /** Nothing is lost or made up: each seed is planned as often as delivered packs contain it, and all
      quantities together are the delivered packs times the items per pack. */
  lemma {:induction false} PlanConserves(d: PackDefinition, stock: Stock, dice: Dice, n: nat, seedId: string)
    requires d.dropTable != [] && d.itemsPerPack >= 0
    ensures var t := TallyThrough(d, stock, dice, n);
      && Planned(t, seedId) == DeliveredCount(d, stock, dice, n, seedId)
      && Sum(t.values, t.keys) == DeliveredThrough(d, stock, dice, n) * d.itemsPerPack
  {
    hide Sum, Obstacle, Delivered, TallySeeds, PackSeeds, Count;
    if n == 0 {
      NothingPlanned(seedId);
    } else {
      PlanConserves(d, stock, dice, n - 1, seedId);
      if Delivered(d, stock, dice, n - 1) {
        var before := TallyThrough(d, stock, dice, n - 1);
        TallyCounts(before, PackSeeds(d, dice, n - 1), seedId);
        TallyAddsUp(before, PackSeeds(d, dice, n - 1));
        OneMorePack(DeliveredThrough(d, stock, dice, n - 1), d.itemsPerPack);
        assert |PackSeeds(d, dice, n - 1)| == d.itemsPerPack by { PackSize(d, dice, n - 1); }
      }
    }
  }

  // ---- Which packs are delivered ----

  /** What keeps one more copy of the seed from being had when `taken` copies are gone. */
  ghost predicate Blocked(stock: Stock, taken: int, seedId: string, reason: SkipReason) {
    if seedId !in stock.seeds then reason == MissingSeed
    else
      var seed := stock.seeds[seedId];
      if seed.maxSupply != 0 && seed.maxSupply - seed.distributed - taken < 1 then reason == InsufficientSupply
      else
        reason == InsufficientReservation && stock.reservations.Some?
        && (seedId in stock.reservations.value ==> stock.reservations.value[seedId] - taken < 1)
        && (seedId !in stock.reservations.value ==> -taken < 1)
  }

  /** A copy of the seed can be had: it is known, supply is left, and, if there are reservations, one is left. */
  ghost predicate CanBeHad(stock: Stock, taken: int, seedId: string) {
    && seedId in stock.seeds
    && (stock.seeds[seedId].maxSupply == 0 || taken < stock.seeds[seedId].maxSupply - stock.seeds[seedId].distributed)
    && (stock.reservations.Some? ==>
          taken < if seedId in stock.reservations.value then stock.reservations.value[seedId] else 0)
  }

  /** The first seed of which no more can be had, and why. */
  ghost predicate FirstBlocked(stock: Stock, t: Tally, seeds: seq<string>, k: int, reason: SkipReason) {
    && 0 <= k < |seeds| && Blocked(stock, Planned(t, seeds[k]), seeds[k], reason)
    && forall j :: 0 <= j < k ==> CanBeHad(stock, Planned(t, seeds[j]), seeds[j])
  }

  lemma ObstacleOfLast(stock: Stock, t: Tally, seeds: seq<string>)
    requires seeds != []
    ensures var earlier, last := Obstacle(stock, t, seeds[..|seeds| - 1]), seeds[|seeds| - 1];
      if earlier.Some? then Obstacle(stock, t, seeds) == earlier
      else if CanBeHad(stock, Planned(t, last), last) then Obstacle(stock, t, seeds).None?
      else Obstacle(stock, t, seeds).Some? && Blocked(stock, Planned(t, last), last, Obstacle(stock, t, seeds).value)
  {
    hide Planned;
  }

  lemma BlockedCannotBeHad(stock: Stock, taken: int, seedId: string, reason: SkipReason)
    requires Blocked(stock, taken, seedId, reason)
    ensures !CanBeHad(stock, taken, seedId)
  {}

  lemma {:induction false} ObstacleIsFirstBlocked(stock: Stock, t: Tally, seeds: seq<string>)
    ensures Obstacle(stock, t, seeds).None? <==> forall k :: 0 <= k < |seeds| ==> CanBeHad(stock, Planned(t, seeds[k]), seeds[k])
    ensures Obstacle(stock, t, seeds).Some? ==> exists k :: FirstBlocked(stock, t, seeds, k, Obstacle(stock, t, seeds).value)
  {
    hide Planned, Obstacle, Blocked, CanBeHad;
    if seeds == [] {
      NoObstacleInNothing(stock, t);
    } else {
      var front, last := seeds[..|seeds| - 1], seeds[|seeds| - 1];
      ObstacleIsFirstBlocked(stock, t, front);
      ObstacleOfLast(stock, t, seeds);
      if Obstacle(stock, t, front).Some? {
        var k :| FirstBlocked(stock, t, front, k, Obstacle(stock, t, front).value);
        assert FirstBlocked(stock, t, seeds, k, Obstacle(stock, t, seeds).value);
        BlockedCannotBeHad(stock, Planned(t, seeds[k]), seeds[k], Obstacle(stock, t, seeds).value);
      } else if Obstacle(stock, t, seeds).Some? {
        assert FirstBlocked(stock, t, seeds, |front|, Obstacle(stock, t, seeds).value);
      }
    }
  }

  lemma NoObstacleInNothing(stock: Stock, t: Tally)
    ensures Obstacle(stock, t, []).None?
  {}

  lemma {:induction false} CountIsMultiplicity(seeds: seq<string>, seedId: string)
    ensures Count(seeds, seedId) == multiset(seeds)[seedId]
  {
    if seeds != [] {
      CountIsMultiplicity(seeds[..|seeds| - 1], seedId);
      assert seeds == seeds[..|seeds| - 1] + [seeds[|seeds| - 1]];
    }
  }

  /** Position `k` of the pack is the first whose seed cannot be had after the packs delivered before. */
  ghost predicate RunsOutAt(d: PackDefinition, stock: Stock, dice: Dice, p: nat, k: int, reason: SkipReason)
    requires d.dropTable != [] && d.itemsPerPack >= 0
  {
    var seeds := PackSeeds(d, dice, p);
    && 0 <= k < |seeds|
    && Blocked(stock, DeliveredCount(d, stock, dice, p, seeds[k]), seeds[k], reason)
    && forall j :: 0 <= j < k ==> CanBeHad(stock, DeliveredCount(d, stock, dice, p, seeds[j]), seeds[j])
  }

  /** A pack is delivered if and only if of every seed it names a copy can still be had after the packs
      delivered before it; otherwise the reason is what keeps the first such seed from being had. */
  lemma DeliveredIffAllCanBeHad(d: PackDefinition, stock: Stock, dice: Dice, p: nat)
    requires d.dropTable != [] && d.itemsPerPack >= 0
    ensures var s, seeds := SelectionOf(d, stock, dice, p), PackSeeds(d, dice, p);
      && s.packIndex == p && s.selectedSeedIds == seeds && (s.delivered <==> s.reason.None?)
      && (s.delivered <==>
            forall k :: 0 <= k < |seeds| ==> CanBeHad(stock, DeliveredCount(d, stock, dice, p, seeds[k]), seeds[k]))
      && (s.reason.Some? ==> exists k :: RunsOutAt(d, stock, dice, p, k, s.reason.value))
  {
    hide Blocked, CanBeHad, PackSeeds, TallyThrough, DeliveredCount, Planned, Obstacle;
    var seeds, t := PackSeeds(d, dice, p), TallyThrough(d, stock, dice, p);
    forall k | 0 <= k < |seeds| ensures Planned(t, seeds[k]) == DeliveredCount(d, stock, dice, p, seeds[k]) {
      PlanConserves(d, stock, dice, p, seeds[k]);
    }
    ObstacleIsFirstBlocked(stock, t, seeds);
    if Obstacle(stock, t, seeds).Some? {
      var k :| FirstBlocked(stock, t, seeds, k, Obstacle(stock, t, seeds).value);
      assert RunsOutAt(d, stock, dice, p, k, Obstacle(stock, t, seeds).value);
    }
  }

  /** Of several snapshots of one seed the last one counts. */
  lemma {:induction false} LastSnapshotCounts(snapshots: seq<SeedSnapshot>, seedId: string)
    ensures seedId in Snapshots(snapshots) <==> exists k :: 0 <= k < |snapshots| && snapshots[k].seedId == seedId
    ensures seedId in Snapshots(snapshots) ==> exists k :: LastOf(snapshots, seedId, k) && Snapshots(snapshots)[seedId] == snapshots[k]
  {
    if snapshots != [] {
      var front, last := snapshots[..|snapshots| - 1], snapshots[|snapshots| - 1];
      LastSnapshotCounts(front, seedId);
      assert snapshots[|front|] == last;
      if last.seedId == seedId {
        assert LastOf(snapshots, seedId, |front|);
      } else if seedId in Snapshots(front) {
        var k :| LastOf(front, seedId, k) && Snapshots(front)[seedId] == front[k];
        assert LastOf(snapshots, seedId, k);
      }
    }
  }

  predicate LastOf(snapshots: seq<SeedSnapshot>, seedId: string, k: int) {
    && 0 <= k < |snapshots| && snapshots[k].seedId == seedId
    && forall j :: k < j < |snapshots| ==> snapshots[j].seedId != seedId
  }

  // ---- How much can be planned ----

  /** A limit that the check loop respects for a seed: what is left of its supply, or what is reserved. */
  ghost predicate Limits(stock: Stock, seedId: string, limit: int) {
    || (Capped(stock, seedId) && limit == Left(stock, seedId))
    || (stock.reservations.Some? && limit == ReservedFor(stock, seedId))
  }

  lemma {:induction false} NoObstacle(stock: Stock, t: Tally, seeds: seq<string>, seedId: string, limit: int)
    requires Limits(stock, seedId, limit) && Obstacle(stock, t, seeds).None? && Count(seeds, seedId) > 0
    ensures Planned(t, seedId) < limit
  {
    if seeds[|seeds| - 1] != seedId { NoObstacle(stock, t, seeds[..|seeds| - 1], seedId, limit); }
  }

  /** No delivered pack among the first `n` contains the seed more than `m` times. */
  ghost predicate RepeatsAtMost(d: PackDefinition, stock: Stock, dice: Dice, n: nat, seedId: string, m: nat)
    requires d.dropTable != [] && d.itemsPerPack >= 0
  {
    forall p: nat :: p < n && Delivered(d, stock, dice, p) ==> Count(PackSeeds(d, dice, p), seedId) <= m
  }

  /** A limited seed is overshot by less than the number of times one delivered pack repeats it. */
  lemma {:induction false} OvershootIsBounded(
      d: PackDefinition, stock: Stock, dice: Dice, n: nat, seedId: string, limit: int, m: nat)
    requires d.dropTable != [] && d.itemsPerPack >= 0 && m >= 1
    requires Limits(stock, seedId, limit) && RepeatsAtMost(d, stock, dice, n, seedId, m)
    ensures Planned(TallyThrough(d, stock, dice, n), seedId) <= Max(0, limit + m - 1)
  {
    hide Count, Obstacle, TallySeeds, PackSeeds, Limits, Planned;
    if n == 0 {
      NothingPlanned(seedId);
    } else {
      OvershootIsBounded(d, stock, dice, n - 1, seedId, limit, m);
      var before, seeds := TallyThrough(d, stock, dice, n - 1), PackSeeds(d, dice, n - 1);
      if Delivered(d, stock, dice, n - 1) {
        TallyCounts(before, seeds, seedId);
        if Count(seeds, seedId) > 0 { NoObstacle(stock, before, seeds, seedId, limit); }
      }
    }
  }

  lemma {:induction false} CountAtMostLength(seeds: seq<string>, seedId: string)
    ensures Count(seeds, seedId) <= |seeds|
  {
    if seeds != [] { CountAtMostLength(seeds[..|seeds| - 1], seedId); }
  }

  /** In every plan: the planned count of a limited seed stays below its limit plus one pack, and
      within the limit when no delivered pack repeats the seed. */
  lemma SupplyBound(d: PackDefinition, stock: Stock, dice: Dice, n: nat, seedId: string, limit: int)
    requires d.dropTable != [] && d.itemsPerPack >= 1 && Limits(stock, seedId, limit)
    ensures Planned(TallyThrough(d, stock, dice, n), seedId) <= Max(0, limit + d.itemsPerPack - 1)
    ensures RepeatsAtMost(d, stock, dice, n, seedId, 1) ==>
      Planned(TallyThrough(d, stock, dice, n), seedId) <= Max(0, limit)
  {
    forall p: nat ensures Count(PackSeeds(d, dice, p), seedId) <= d.itemsPerPack {
      CountAtMostLength(PackSeeds(d, dice, p), seedId);
    }
    OvershootIsBounded(d, stock, dice, n, seedId, limit, d.itemsPerPack);
    if RepeatsAtMost(d, stock, dice, n, seedId, 1) { OvershootIsBounded(d, stock, dice, n, seedId, limit, 1); }
  }

  /** Whatever is in stock and however the dice fall, no capped seed is planned beyond what is left of it. */
  ghost predicate NeverOverSupply(d: PackDefinition)
    requires d.dropTable != [] && d.itemsPerPack >= 0
  {
    forall stock, dice, n, seedId :: Capped(stock, seedId) ==>
      Planned(TallyThrough(d, stock, dice, n), seedId) <= Max(0, Left(stock, seedId))
  }

  /** The same for what is reserved. */
  ghost predicate NeverOverReservation(d: PackDefinition)
    requires d.dropTable != [] && d.itemsPerPack >= 0
  {
    forall stock: Stock, dice, n, seedId :: stock.reservations.Some? ==>
      Planned(TallyThrough(d, stock, dice, n), seedId) <= Max(0, ReservedFor(stock, seedId))
  }

  /** The same for every limit there is. */
  ghost predicate NeverOverLimit(d: PackDefinition)
    requires d.dropTable != [] && d.itemsPerPack >= 0
  {
    forall stock, dice, n, seedId, limit :: Limits(stock, seedId, limit) ==>
      Planned(TallyThrough(d, stock, dice, n), seedId) <= Max(0, limit)
  }

  lemma {:induction false} AlwaysTheFirst(table: seq<DropEntry>, n: nat)
    requires PositiveWeights(table)
    ensures Count(DrawnSeeds(table, _ => 0, n), table[0].seedId) == n
  {
    if n > 0 {
      AlwaysTheFirst(table, n - 1);
      RollLandsInOneInterval(table, 0, 0);
      CumulativeGrows(table, 0, 1);
      PointOfZero(table);
    }
  }

  lemma PointOfZero(table: seq<DropEntry>)
    ensures Point(table, 0) == 0.0
  {}

  /** The seed may be planned once more. */
  predicate OneToHave(stock: Stock, seedId: string) {
    && seedId in stock.seeds && (stock.seeds[seedId].maxSupply == 0 || Left(stock, seedId) >= 1)
    && (stock.reservations.Some? ==> ReservedFor(stock, seedId) >= 1)
  }

  /** If one copy can be had, a pack whose rolls all come up the same is delivered in full. */
  lemma RepeatsAreDelivered(d: PackDefinition, stock: Stock)
    requires ValidDefinition(d) && d.dropTable != [] && OneToHave(stock, d.dropTable[0].seedId)
    ensures Planned(TallyThrough(d, stock, (p, i) => 0, 1), d.dropTable[0].seedId) == d.itemsPerPack
  {
    hide OneToHave;
    ValidTableIsPositive(d.dropTable);
    var seedId := d.dropTable[0].seedId;
    var dice: Dice := (p, i) => 0;
    var seeds := PackSeeds(d, dice, 0);
    assert seeds == DrawnSeeds(d.dropTable, _ => 0, d.itemsPerPack) by { SameDice(d.dropTable, item => dice(0, item), _ => 0, d.itemsPerPack); }
    AlwaysTheFirst(d.dropTable, d.itemsPerPack);
    OnlyFirstIsNoObstacle(stock, seeds, seedId);
    var t := TallyThrough(d, stock, dice, 1);
    assert TallyThrough(d, stock, dice, 0) == Empty();
    assert Delivered(d, stock, dice, 0);
    assert t == TallySeeds(Empty(), seeds);
    TallyCounts(Empty(), seeds, seedId);
  }

  /** One copy left, or one reserved out of an unlimited supply, and a pack of several that all come up
      the same. */
  lemma RepeatsOverdraw(d: PackDefinition)
    requires ValidDefinition(d) && d.itemsPerPack > 1
    ensures !NeverOverSupply(d) && !NeverOverReservation(d) && !NeverOverLimit(d)
  {
    hide TallyThrough;
    ValidTableIsPositive(d.dropTable);
    var seedId := d.dropTable[0].seedId;
    var lastOne := Stock(map[seedId := SeedSnapshot(seedId, "", 1, 0, 0)], None);
    var oneReserved := Stock(map[seedId := SeedSnapshot(seedId, "", 0, 0, 0)], Some(map[seedId := 1]));
    RepeatsAreDelivered(d, lastOne);
    RepeatsAreDelivered(d, oneReserved);
    assert Capped(lastOne, seedId) && Limits(lastOne, seedId, 1);
    assert ReservedFor(oneReserved, seedId) == 1;
  }

  lemma {:induction false} SameDice(table: seq<DropEntry>, a: nat -> Roll, b: nat -> Roll, n: nat)
    requires table != [] && forall i: nat :: i < n ==> a(i) == b(i)
    ensures DrawnSeeds(table, a, n) == DrawnSeeds(table, b, n)
  {
    if n > 0 { SameDice(table, a, b, n - 1); }
  }

  lemma {:induction false} OnlyFirstIsNoObstacle(stock: Stock, seeds: seq<string>, seedId: string)
    requires OneToHave(stock, seedId) && Count(seeds, seedId) == |seeds|
    ensures Obstacle(stock, Empty(), seeds).None?
  {
    if seeds != [] {
      CountAtMostLength(seeds[..|seeds| - 1], seedId);
      OnlyFirstIsNoObstacle(stock, seeds[..|seeds| - 1], seedId);
    }
  }

  /** Supply and reservations are respected in every plan of a definition exactly when its packs hold a
      single item: the check before delivery counts what earlier packs took, but not repeats inside one pack. */
  lemma SupplyRespectedIffSingleItems(d: PackDefinition)
    requires ValidDefinition(d)
    ensures NeverOverSupply(d) <==> d.itemsPerPack == 1
    ensures NeverOverReservation(d) <==> d.itemsPerPack == 1
    ensures NeverOverLimit(d) <==> d.itemsPerPack == 1
  {
    hide TallyThrough;
    if d.itemsPerPack == 1 {
      forall stock, dice, n: nat, seedId, limit | Limits(stock, seedId, limit)
        ensures Planned(TallyThrough(d, stock, dice, n), seedId) <= Max(0, limit)
      {
        SupplyBound(d, stock, dice, n, seedId, limit);
        SingleItemsDoNotRepeat(d, stock, dice, n, seedId);
      }
      LimitsCoverBoth(d);
    } else {
      RepeatsOverdraw(d);
    }
  }

  lemma SingleItemsDoNotRepeat(d: PackDefinition, stock: Stock, dice: Dice, n: nat, seedId: string)
    requires d.dropTable != [] && d.itemsPerPack == 1
    ensures RepeatsAtMost(d, stock, dice, n, seedId, 1)
  {
    hide Delivered;
    forall p: nat ensures Count(PackSeeds(d, dice, p), seedId) <= 1 {
      CountAtMostLength(PackSeeds(d, dice, p), seedId);
    }
  }

  lemma LimitsCoverBoth(d: PackDefinition)
    requires d.dropTable != [] && d.itemsPerPack >= 0 && NeverOverLimit(d)
    ensures NeverOverSupply(d) && NeverOverReservation(d)
  {
    hide TallyThrough, Planned;
    forall stock, dice, n: nat, seedId | Capped(stock, seedId)
      ensures Planned(TallyThrough(d, stock, dice, n), seedId) <= Max(0, Left(stock, seedId))
    {
      assert Limits(stock, seedId, Left(stock, seedId));
    }
    forall stock: Stock, dice, n: nat, seedId | stock.reservations.Some?
      ensures Planned(TallyThrough(d, stock, dice, n), seedId) <= Max(0, ReservedFor(stock, seedId))
    {
      assert Limits(stock, seedId, ReservedFor(stock, seedId));
    }
  }

  // ---- The planner ----

  type ItemTable = OrderedMap<string, Item>

  /** One item per planned seed, in the same order and with the same quantity. */
  ghost predicate ItemsMatch(stock: Stock, t: Tally, items: ItemTable) {
    && items.Valid() && items.keys == t.keys
    && forall k :: k in t.values ==>
         k in stock.seeds && k in items.values && items.values[k] == Item(k, stock.seeds[k].seedTxId, t.values[k])
  }

  ghost predicate PlanIs(d: PackDefinition, stock: Stock, dice: Dice, quantity: nat, plan: Plan)
    requires d.dropTable != [] && d.itemsPerPack >= 0
  {
    var t := TallyThrough(d, stock, dice, quantity);
    && |plan.selections| == quantity
    && (forall p :: 0 <= p < quantity ==> plan.selections[p] == SelectionOf(d, stock, dice, p))
    && plan.deliveredPacks == DeliveredThrough(d, stock, dice, quantity)
    && plan.skippedPacks + plan.deliveredPacks == quantity
    && |plan.items| == |plan.reservationConsumption| == |t.keys|
    && (forall i :: 0 <= i < |t.keys| ==>
          && t.keys[i] in stock.seeds
          && plan.items[i] == Item(t.keys[i], stock.seeds[t.keys[i]].seedTxId, t.values[t.keys[i]])
          && plan.reservationConsumption[i] == Consumption(t.keys[i], t.values[t.keys[i]]))
  }

  method SelectPackSeedIds(d: PackDefinition, dice: Dice, packIndex: nat) returns (r: Result<seq<string>>)
    ensures r.Done? <==> ValidDefinition(d)
    ensures r.Done? ==> r.value == PackSeeds(d, dice, packIndex)
  {
    var valid := AssertValidPackDefinition(d);
    if valid.Error? { return Error(valid.message); }
    ValidTableIsPositive(d.dropTable);
    r := ResolveDropTable(d.dropTable, d.itemsPerPack, item => dice(packIndex, item));
  }

  /** The check loop: stops at the first seed that is missing, sold out or not reserved. */
  method CheckPack(stock: Stock, planned: Tally, consumption: Tally, seeds: seq<string>) returns (reason: Option<SkipReason>)
    requires planned == consumption
    ensures reason == Obstacle(stock, planned, seeds)
  {
    for k := 0 to |seeds|
      invariant Obstacle(stock, planned, seeds[..k]).None?
    {
      var seedId := seeds[k];
      assert seeds[..k + 1][..k] == seeds[..k];
      reason := None;
      if seedId !in stock.seeds {
        reason := Some(MissingSeed);
      } else if stock.seeds[seedId].maxSupply != 0 && Left(stock, seedId) - Planned(planned, seedId) < 1 {
        reason := Some(InsufficientSupply);
      } else if stock.reservations.Some? && ReservedFor(stock, seedId) - Planned(consumption, seedId) < 1 {
        reason := Some(InsufficientReservation);
      }
      assert Obstacle(stock, planned, seeds[..k + 1]) == reason;
      if reason.Some? {
        ObstacleStays(stock, planned, seeds, k + 1);
        return;
      }
    }
    assert seeds[..|seeds|] == seeds;
    return None;
  }

  lemma {:induction false} ObstacleStays(stock: Stock, t: Tally, seeds: seq<string>, k: nat)
    requires k <= |seeds| && Obstacle(stock, t, seeds[..k]).Some?
    ensures Obstacle(stock, t, seeds) == Obstacle(stock, t, seeds[..k])
    decreases |seeds|
  {
    if k == |seeds| {
      assert seeds[..k] == seeds;
    } else {
      assert seeds[..|seeds| - 1][..k] == seeds[..k];
      ObstacleStays(stock, t, seeds[..|seeds| - 1], k);
    }
  }

  lemma {:induction false} NoObstacleKnown(stock: Stock, t: Tally, seeds: seq<string>)
    requires Obstacle(stock, t, seeds).None?
    ensures forall k :: 0 <= k < |seeds| ==> seeds[k] in stock.seeds
  {
    if seeds != [] { NoObstacleKnown(stock, t, seeds[..|seeds| - 1]); }
  }

  lemma NothingTallied(t: Tally)
    requires t.Valid()
    ensures TallySeeds(t, []) == t
  {}

  lemma LastTallied(t: Tally, seeds: seq<string>, k: nat)
    requires t.Valid() && k < |seeds|
    ensures TallySeeds(t, seeds[..k + 1]) == Tallied(TallySeeds(t, seeds[..k]), seeds[k])
  {
    hide Tallied;
    var s := seeds[..k + 1];
    assert s[..|s| - 1] == seeds[..k] && s[|s| - 1] == seeds[k];
  }

  lemma OneMoreItem(stock: Stock, t: Tally, items: ItemTable, seedId: string)
    requires t.Valid() && ItemsMatch(stock, t, items) && seedId in stock.seeds
    ensures items.Valid() && (seedId in items.values <==> seedId in t.values)
    ensures var item := if seedId in items.values then items.values[seedId].(quantity := items.values[seedId].quantity + 1)
                        else Item(seedId, stock.seeds[seedId].seedTxId, 1);
      ItemsMatch(stock, Tallied(t, seedId), items.Set(seedId, item))
  {}

  /** The delivery loop: supply, reservations and items move together. */
  method DeliverPack(stock: Stock, planned: Tally, consumption: Tally, items: ItemTable, seeds: seq<string>)
    returns (planned': Tally, consumption': Tally, items': ItemTable)
    requires planned.Valid() && planned == consumption && ItemsMatch(stock, planned, items)
    requires forall k :: 0 <= k < |seeds| ==> seeds[k] in stock.seeds
    ensures planned' == consumption' == TallySeeds(planned, seeds) && ItemsMatch(stock, planned', items')
  {
    hide TallySeeds, ItemsMatch, Tallied;
    planned', consumption', items' := planned, consumption, items;
    assert TallySeeds(planned, seeds[..0]) == planned by { NothingTallied(planned); }
    for k := 0 to |seeds|
      invariant planned' == consumption' == TallySeeds(planned, seeds[..k]) && ItemsMatch(stock, planned', items')
    {
      var seedId := seeds[k];
      var seed := stock.seeds[seedId];
      LastTallied(planned, seeds, k);
      OneMoreItem(stock, planned', items', seedId);
      planned' := Tallied(planned', seedId);
      consumption' := Tallied(consumption', seedId);
      var item := Item(seedId, seed.seedTxId, 1);
      if seedId in items'.values {
        var current := items'.values[seedId];
        item := current.(quantity := current.quantity + 1);
      }
      items' := items'.Set(seedId, item);
    }
    assert seeds[..|seeds|] == seeds;
  }

  function DeliveredOf(selections: seq<Selection>): nat {
    if selections == [] then 0
    else DeliveredOf(selections[..|selections| - 1]) + if selections[|selections| - 1].delivered then 1 else 0
  }

  lemma {:induction false} DeliveredOfSelections(d: PackDefinition, stock: Stock, dice: Dice, selections: seq<Selection>)
    requires d.dropTable != [] && d.itemsPerPack >= 0
    requires forall p :: 0 <= p < |selections| ==> selections[p] == SelectionOf(d, stock, dice, p)
    ensures DeliveredOf(selections) == DeliveredThrough(d, stock, dice, |selections|) <= |selections|
  {
    if selections != [] { DeliveredOfSelections(d, stock, dice, selections[..|selections| - 1]); }
  }

  lemma NextPack(d: PackDefinition, stock: Stock, dice: Dice, p: nat)
    requires d.dropTable != [] && d.itemsPerPack >= 0
    ensures var before, seeds := TallyThrough(d, stock, dice, p), PackSeeds(d, dice, p);
      TallyThrough(d, stock, dice, p + 1) ==
        if Obstacle(stock, before, seeds).None? then TallySeeds(before, seeds) else before
  {
    hide Obstacle, TallySeeds, PackSeeds;
  }

  /** The lists of a plan, in the order in which seeds were first planned. */
  method Itemise(stock: Stock, t: Tally, items: ItemTable)
    returns (listed: seq<Item>, consumed: seq<Consumption>)
    requires t.Valid() && ItemsMatch(stock, t, items)
    ensures |listed| == |consumed| == |t.keys|
    ensures forall i :: 0 <= i < |t.keys| ==>
      && t.keys[i] in stock.seeds
      && listed[i] == Item(t.keys[i], stock.seeds[t.keys[i]].seedTxId, t.values[t.keys[i]])
      && consumed[i] == Consumption(t.keys[i], t.values[t.keys[i]])
  {
    var keys := t.keys;
    listed := seq(|keys|, i requires 0 <= i < |keys| && (forall k :: k in keys ==> k in items.values) => items.values[keys[i]]);
    consumed := seq(|keys|, i requires 0 <= i < |keys| && (forall k :: k in keys ==> k in t.values) =>
      Consumption(keys[i], t.values[keys[i]]));
  }

  /** Succeeds for a valid definition and a quantity from 1 to 50. Pack after pack is then selected,
      checked against what the earlier ones took, and delivered whole or skipped with its reason. */
  method BuildPackOpenPlan(d: PackDefinition, snapshots: seq<SeedSnapshot>, quantity: int, dice: Dice,
                           reservations: Option<map<string, int>>)
    returns (r: Result<Plan>)
    ensures r.Done? <==> ValidDefinition(d) && 1 <= quantity <= MAX_PACK_OPEN_BATCH
    ensures r.Done? ==> PlanIs(d, Stock(Snapshots(snapshots), reservations), dice, quantity, r.value)
  {
    hide ValidTable, Obstacle, TallySeeds, PackSeeds, Snapshots, ItemsMatch, DeliveredThrough;
    var valid := AssertValidPackDefinition(d);
    if valid.Error? { return Error(valid.message); }
    if quantity < 1 { return Error("quantity must be a positive integer"); }
    if quantity > MAX_PACK_OPEN_BATCH { return Error("quantity too large"); }
    assert d.dropTable != [] by { ValidHasEntries(d); }
    var stock := Stock(Snapshots(snapshots), reservations);
    var planned: Tally, consumption: Tally, items: ItemTable := Empty(), Empty(), Empty();
    NothingMatches(stock);
    var selections: seq<Selection> := [];
    for packIndex := 0 to quantity
      invariant planned == consumption == TallyThrough(d, stock, dice, packIndex) && ItemsMatch(stock, planned, items)
      invariant |selections| == packIndex
      invariant forall p :: 0 <= p < packIndex ==> selections[p] == SelectionOf(d, stock, dice, p)
    {
      var selected := SelectPackSeedIds(d, dice, packIndex);
      var seeds := selected.value;
      var reason := CheckPack(stock, planned, consumption, seeds);
      selections := selections + [Selection(packIndex, seeds, reason.None?, reason)];
      NextPack(d, stock, dice, packIndex);
      if reason.Some? { continue; }
      NoObstacleKnown(stock, planned, seeds);
      planned, consumption, items := DeliverPack(stock, planned, consumption, items, seeds);
    }
    DeliveredOfSelections(d, stock, dice, selections);
    var deliveredPacks := DeliveredOf(selections);
    var listed, consumed := Itemise(stock, consumption, items);
    return Done(Plan(deliveredPacks, quantity - deliveredPacks, listed, consumed, selections));
  }

  lemma NothingMatches(stock: Stock)
    ensures ItemsMatch(stock, Empty(), Empty())
  {}

  lemma ValidHasEntries(d: PackDefinition)
    requires ValidDefinition(d)
    ensures d.dropTable != []
  {}

  function ItemTotal(items: seq<Item>): nat {
    if items == [] then 0 else ItemTotal(items[..|items| - 1]) + items[|items| - 1].quantity
  }

  lemma {:induction false} TotalIsSum(items: seq<Item>, values: map<string, nat>, keys: seq<string>)
    requires |items| == |keys| && forall k :: k in keys ==> k in values
    requires forall i :: 0 <= i < |keys| ==> items[i].quantity == values[keys[i]]
    ensures ItemTotal(items) == Sum(values, keys)
  {
    if keys != [] { TotalIsSum(items[..|items| - 1], values, keys[..|keys| - 1]); }
  }

  lemma {:induction false} EachRollDrawsItsSeed(table: seq<DropEntry>, rng: nat -> Roll, n: nat, k: nat)
    requires table != [] && k < n
    ensures DrawnSeeds(table, rng, n)[k] == table[Drawn(table, Point(table, rng(k)), 0)].seedId
  {
    if k < n - 1 { EachRollDrawsItsSeed(table, rng, n - 1, k); }
  }

  /** Item `k` of pack `p` is the seed of the one entry in whose interval the roll for that pack and item falls. */
  lemma SelectionFollowsTheRolls(d: PackDefinition, stock: Stock, dice: Dice, quantity: nat, plan: Plan, p: nat, k: nat, e: nat)
    requires ValidDefinition(d) && PlanIs(d, stock, dice, quantity, plan) && p < quantity && k < d.itemsPerPack
    requires e < |d.dropTable|
    ensures |plan.selections[p].selectedSeedIds| == d.itemsPerPack
    ensures var point := dice(p, k) as real / ROLLS as real * TotalWeight(d.dropTable);
      plan.selections[p].selectedSeedIds[k] == d.dropTable[e].seedId <==>
        Cumulative(d.dropTable, e) <= point < Cumulative(d.dropTable, e + 1)
  {
    hide Obstacle, TallyThrough, Delivered, Cumulative, Drawn;
    var table, seeds := d.dropTable, PackSeeds(d, dice, p);
    PackSize(d, dice, p);
    ValidTableIsPositive(table);
    EachRollDrawsItsSeed(table, item => dice(p, item), d.itemsPerPack, k);
    assert plan.selections[p] == SelectionOf(d, stock, dice, p);
    RollLandsInOneInterval(table, dice(p, k), e);
    assert seeds[k] == table[Drawn(table, Point(table, dice(p, k)), 0)].seedId;
  }

  /** A returned plan hands out delivered packs times items per pack, consumes reservations item by item,
      and gives each seed as often as the delivered selections name it. */
  lemma PlanHandsOutWhatItDelivers(d: PackDefinition, stock: Stock, dice: Dice, quantity: nat, plan: Plan)
    requires d.dropTable != [] && d.itemsPerPack >= 0 && PlanIs(d, stock, dice, quantity, plan)
    ensures ItemTotal(plan.items) == plan.deliveredPacks * d.itemsPerPack
    ensures forall i :: 0 <= i < |plan.items| ==>
      && plan.reservationConsumption[i] == Consumption(plan.items[i].seedId, plan.items[i].quantity)
      && plan.items[i].quantity == DeliveredCount(d, stock, dice, quantity, plan.items[i].seedId)
  {
    hide TallyThrough, DeliveredThrough, DeliveredCount, SelectionOf, ItemTotal, Sum;
    var t := TallyThrough(d, stock, dice, quantity);
    PlanConserves(d, stock, dice, quantity, "");
    TotalIsSum(plan.items, t.values, t.keys);
    forall i | 0 <= i < |plan.items|
      ensures plan.items[i].quantity == DeliveredCount(d, stock, dice, quantity, plan.items[i].seedId)
    {
      PlanConserves(d, stock, dice, quantity, plan.items[i].seedId);
    }
  }
}
