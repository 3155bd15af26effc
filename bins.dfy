/**
 * Bins: the rows of the `bins` table and the pure rules the handlers apply to
 * them — the clamped fill after a deposit, the 90% cleaning threshold, the
 * reset done by a cleaning action, and the fill percentage shown by `getBins`.
 */
module Bins {
  import opened Values

  datatype CleaningStatus = Ok | Scheduled | NeedsCleaning

  /** One row of `bins`; its numeric id is its position in the table plus one. */
  datatype Bin = Bin(
    nodeId: string,
    name: string,
    location: string,
    capacityKg: real,
    fillKg: real,
    status: CleaningStatus,
    lastCleanedAt: Option<Timestamp>,
    updatedAt: Timestamp)

  /** A deposit raises a bin to `needs_cleaning` once it is more than this fraction full. */
  const CleaningThreshold: real := 0.9

  /** `Math.min(capacity, fill + weight)`: excess weight is absorbed, never stored. */
  function NextFill(capacity: real, fill: real, weight: real): (r: real)
    ensures r <= capacity && r <= fill + weight
    ensures r == capacity || r == fill + weight
  {
    if fill + weight < capacity then fill + weight else capacity
  }

  /** `nextFill / capacity > 0.9`, with IEEE division by zero: a positive
      numerator gives +Infinity, zero gives NaN and a negative one -Infinity. */
  predicate OverThreshold(nextFill: real, capacity: real) {
    if capacity == 0.0 then nextFill > 0.0 else nextFill / capacity > CleaningThreshold
  }

  /** For a bin of positive capacity the threshold test is "more than 90% of the capacity". */
  lemma OverThresholdByProduct(nextFill: real, capacity: real)
    requires 0.0 < capacity
    ensures OverThreshold(nextFill, capacity) <==> nextFill > CleaningThreshold * capacity
  {
    var q := nextFill / capacity;
    assert q * capacity == nextFill;
    if q > CleaningThreshold {
      assert q * capacity > CleaningThreshold * capacity;
    } else {
      assert q * capacity <= CleaningThreshold * capacity;
    }
  }

  /** The status after a deposit: over the threshold it becomes
      `needs_cleaning`, otherwise it is left as it was. */
  function NextStatus(nextFill: real, capacity: real, previous: CleaningStatus): (r: CleaningStatus)
    ensures r == NeedsCleaning || r == previous
    ensures r == NeedsCleaning <==> OverThreshold(nextFill, capacity) || previous == NeedsCleaning
  {
    if OverThreshold(nextFill, capacity) then NeedsCleaning else previous
  }

  /** The row written back by a deposit of `weight` kilograms at time `at`
      (the deposit handler and the simulator tick share this rule). */
  function Deposited(b: Bin, weight: real, at: Timestamp): (r: Bin)
    ensures r.fillKg <= b.capacityKg && r.fillKg <= b.fillKg + weight
    ensures r.fillKg == b.capacityKg || r.fillKg == b.fillKg + weight
    ensures 0.0 <= b.capacityKg && 0.0 <= b.fillKg && 0.0 <= weight ==> 0.0 <= r.fillKg
    ensures r.status == NeedsCleaning <==> OverThreshold(r.fillKg, b.capacityKg) || b.status == NeedsCleaning
    ensures r.status == NeedsCleaning || r.status == b.status
    ensures r.status == Ok ==> b.status == Ok
    ensures r == b.(fillKg := r.fillKg, status := r.status, updatedAt := at)
  {
    var fill := NextFill(b.capacityKg, b.fillKg, weight);
    b.(fillKg := fill, status := NextStatus(fill, b.capacityKg, b.status), updatedAt := at)
  }

  /** The row written back by the cleaning action at time `at`. */
  function Cleaned(b: Bin, at: Timestamp): (r: Bin)
    ensures 0.0 <= b.capacityKg ==> 0.0 <= r.fillKg <= r.capacityKg
    ensures !OverThreshold(r.fillKg, r.capacityKg)
    ensures r.nodeId == b.nodeId && r.name == b.name && r.location == b.location
    ensures r.capacityKg == b.capacityKg
  {
    b.(fillKg := 0.0, status := Ok, lastCleanedAt := Some(at), updatedAt := at)
  }

  /** Cleaning is unconditional: the result depends only on the bin's identity
      and capacity, never on its fill, status or earlier timestamps. */
  lemma CleanedForgetsHistory(b: Bin, b': Bin, at: Timestamp)
    requires b.nodeId == b'.nodeId && b.name == b'.name && b.location == b'.location
    requires b.capacityKg == b'.capacityKg
    ensures Cleaned(b, at) == Cleaned(b', at)
    ensures Cleaned(b, at).fillKg == 0.0 && Cleaned(b, at).status == Ok
    ensures Cleaned(b, at).lastCleanedAt == Some(at) && Cleaned(b, at).updatedAt == at
  {
  }

  /** A deposit into a freshly cleaned bin stores the weight alone, clamped. */
  lemma DepositAfterCleaning(b: Bin, weight: real, at: Timestamp, at': Timestamp)
    ensures Deposited(Cleaned(b, at), weight, at').fillKg == NextFill(b.capacityKg, 0.0, weight)
  {
  }

  /** The code checks only `typeof weightKg === "number"`: a negative weight
      drains a bin below zero. */
  lemma NegativeWeightDrainsBelowZero(b: Bin, weight: real, at: Timestamp)
    requires 0.0 < b.capacityKg && b.fillKg == 0.0 && weight < 0.0
    ensures Deposited(b, weight, at).fillKg < 0.0
  {
  }

  /** What every row of the table satisfies: a positive capacity (the seed
      rows have one and nothing writes it), a fill that never exceeds it, and
      distinct node ids (`node_id TEXT UNIQUE`). */
  predicate BinsValid(bins: seq<Bin>) {
    && (forall i :: 0 <= i < |bins| ==> 0.0 < bins[i].capacityKg && bins[i].fillKg <= bins[i].capacityKg)
    && (forall i, j :: 0 <= i < j < |bins| ==> bins[i].nodeId != bins[j].nodeId)
  }

  /** Every fill is also non-negative (kept as long as no negative weight arrives). */
  predicate FillsInRange(bins: seq<Bin>) {
    forall i :: 0 <= i < |bins| ==> 0.0 <= bins[i].fillKg <= bins[i].capacityKg
  }

  /** `SELECT * FROM bins WHERE node_id = ?`: the position of the bin with that node id. */
  function FindNode(bins: seq<Bin>, nodeId: string): (r: Option<nat>)
    ensures r.Some? ==> r.value < |bins| && bins[r.value].nodeId == nodeId
    ensures r.None? ==> forall i :: 0 <= i < |bins| ==> bins[i].nodeId != nodeId
  {
    if |bins| == 0 then None
    else if bins[0].nodeId == nodeId then Some(0)
    else match FindNode(bins[1..], nodeId)
      case None => None
      case Some(k) => Some(k + 1)
  }

  /** With unique node ids the lookup finds exactly the bin that carries the id. */
  lemma FindNodeOfBin(bins: seq<Bin>, i: nat)
    requires BinsValid(bins) && i < |bins|
    ensures FindNode(bins, bins[i].nodeId) == Some(i)
  {
  }

  /** A deposit into one row keeps the table valid and changes no other row. */
  lemma DepositKeepsBinsValid(bins: seq<Bin>, i: nat, weight: real, at: Timestamp)
    requires BinsValid(bins) && i < |bins|
    ensures BinsValid(bins[i := Deposited(bins[i], weight, at)])
    ensures FillsInRange(bins) && 0.0 <= weight ==> FillsInRange(bins[i := Deposited(bins[i], weight, at)])
  {
  }

  /** Cleaning one row keeps the table valid, with every fill in range for that row. */
  lemma CleaningKeepsBinsValid(bins: seq<Bin>, i: nat, at: Timestamp)
    requires BinsValid(bins) && i < |bins|
    ensures BinsValid(bins[i := Cleaned(bins[i], at)])
    ensures FillsInRange(bins) ==> FillsInRange(bins[i := Cleaned(bins[i], at)])
  {
  }

  /** `Math.min(100, Math.round(fill / capacity * 100))`, with `Math.round(x)`
      being `floor(x + 0.5)` on exact reals. */
  function FillPercent(fill: real, capacity: real): (r: int)
    requires 0.0 < capacity
    ensures r <= 100
    ensures 0.0 <= fill ==> 0 <= r
    ensures capacity <= fill ==> r == 100
    ensures fill <= capacity ==> (r as real) - 0.5 <= fill / capacity * 100.0 < (r as real) + 0.5
  {
    var rounded := (fill / capacity * 100.0 + 0.5).Floor;
    if rounded < 100 then rounded else 100
  }

  /** One element of the `getBins` answer: the row, its id and its derived percentage. */
  datatype BinView = BinView(id: nat, bin: Bin, fillPercent: int)

  /** `getBins`: every row in ascending id order, each with its fill percentage. */
  function BinViews(bins: seq<Bin>): (r: seq<BinView>)
    requires forall i :: 0 <= i < |bins| ==> 0.0 < bins[i].capacityKg
    ensures |r| == |bins|
    ensures forall i :: 0 <= i < |r| ==> r[i].id == i + 1 && r[i].bin == bins[i]
    ensures forall i :: 0 <= i < |r| ==> r[i].fillPercent == FillPercent(bins[i].fillKg, bins[i].capacityKg)
    ensures forall i :: 0 <= i < |r| ==> r[i].fillPercent <= 100
  {
    seq(|bins|, i requires 0 <= i < |bins| =>
      BinView(i + 1, bins[i], FillPercent(bins[i].fillKg, bins[i].capacityKg)))
  }

  /** The five demonstration rows written on first start. */
  function SeedBins(now: Timestamp): (r: seq<Bin>)
    ensures BinsValid(r) && FillsInRange(r)
  {
    [ Bin("BIN-001", "Plastic Pod", "Block A", 60.0, 22.0, Ok, Some(now), now),
      Bin("BIN-002", "Paper Vault", "Block A", 70.0, 31.0, Scheduled, Some(now), now),
      Bin("BIN-003", "Metal Dock", "Block B", 65.0, 18.0, Ok, Some(now), now),
      Bin("BIN-004", "Organic Bay", "Block B", 55.0, 42.0, NeedsCleaning, Some(now), now),
      Bin("BIN-005", "E-Waste Cube", "Main Gate", 80.0, 11.0, Ok, Some(now), now) ]
  }

  /** The seeded BIN-004 (42 of 55 kg): 5 more kilograms give 47 kg, 47/55 is
      below the threshold, and the status stays `needs_cleaning`; 10 kg into
      the cleaned bin give 10 kg and leave it `ok`. */
  lemma Bin004Example(now: Timestamp, at: Timestamp)
    ensures Deposited(SeedBins(now)[3], 5.0, at).fillKg == 47.0
    ensures !OverThreshold(47.0, 55.0)
    ensures Deposited(SeedBins(now)[3], 5.0, at).status == NeedsCleaning
    ensures Deposited(Cleaned(SeedBins(now)[3], at), 10.0, at).fillKg == 10.0
    ensures Deposited(Cleaned(SeedBins(now)[3], at), 10.0, at).status == Ok
  {
  }
}
