/**
 * Waste events: the append-only `waste_events` table, the values a deposit
 * stores in it, and the aggregation behind `getOverview` — per-category sums,
 * the grand total and the contamination count.
 */
module Events {
  import opened Values

  /** The fixed category list; the overview has an entry for each of them. */
  const Categories: seq<string> := ["plastic", "paper", "metal", "organic", "e_waste"]

  /** One row of `waste_events`. `category` is stored as sent: nothing checks
      it against `Categories`. `contamination` is the stored integer. */
  datatype WasteEvent = WasteEvent(
    binId: nat,
    category: string,
    weightKg: real,
    confidence: JsValue,
    contamination: int,
    createdAt: Timestamp)

  /** `confidence || 0.75`: a falsy confidence (absent, null, 0, "") becomes 0.75. */
  function StoredConfidence(v: JsValue): (r: JsValue)
    ensures Truthy(r)
    ensures Truthy(v) ==> r == v
    ensures !Truthy(v) ==> r == Num(0.75)
  {
    if Truthy(v) then v else Num(0.75)
  }

  /** `contamination ? 1 : 0` */
  function ContaminationFlag(v: JsValue): (r: int)
    ensures r == 0 || r == 1
    ensures r == 1 <==> Truthy(v)
  {
    if Truthy(v) then 1 else 0
  }

  // ---- the three queries of getOverview ----

  /** No event carries a negative weight (the deposit handler does not ensure this). */
  predicate WeightsNonNegative(events: seq<WasteEvent>) {
    forall i :: 0 <= i < |events| ==> 0.0 <= events[i].weightKg
  }

  /** `COALESCE(SUM(weight_kg), 0)` over all events. */
  function TotalWeight(events: seq<WasteEvent>): (t: real)
    ensures events == [] ==> t == 0.0
    ensures WeightsNonNegative(events) ==> 0.0 <= t
    decreases |events|
  {
    if events == [] then 0.0
    else
      var prefix := events[..|events| - 1];
      assert forall i :: 0 <= i < |prefix| ==> prefix[i] == events[i];
      TotalWeight(prefix) + events[|events| - 1].weightKg
  }

  /** `SUM(weight_kg) ... WHERE category = c`, zero when no event has that category. */
  function CategoryTotal(events: seq<WasteEvent>, c: string): real
    decreases |events|
  {
    if events == [] then 0.0
    else
      var last := events[|events| - 1];
      CategoryTotal(events[..|events| - 1], c) + (if last.category == c then last.weightKg else 0.0)
  }

  /** With no negative weight a category's total lies between zero and the grand total. */
  lemma {:induction false} CategoryTotalBounds(events: seq<WasteEvent>, c: string)
    requires WeightsNonNegative(events)
    ensures 0.0 <= CategoryTotal(events, c) <= TotalWeight(events)
    decreases |events|
  {
    if events != [] {
      var prefix := events[..|events| - 1];
      assert forall i :: 0 <= i < |prefix| ==> prefix[i] == events[i];
      CategoryTotalBounds(prefix, c);
    }
  }

  /** `COUNT(*) ... WHERE contamination = 1` */
  function ContaminationCount(events: seq<WasteEvent>): (n: nat)
    ensures n <= |events|
    ensures n == 0 <==> forall i :: 0 <= i < |events| ==> events[i].contamination != 1
    decreases |events|
  {
    if events == [] then 0
    else
      var prefix := events[..|events| - 1];
      assert forall i :: 0 <= i < |prefix| ==> prefix[i] == events[i];
      ContaminationCount(prefix) + (if events[|events| - 1].contamination == 1 then 1 else 0)
  }

  predicate Distinct(keys: seq<string>) {
    forall i, j :: 0 <= i < j < |keys| ==> keys[i] != keys[j]
  }

  /** The groups of `GROUP BY category`: every category that occurs, once.
      SQL does not specify the order of the groups; the model fixes the order
      of first occurrence. */
  function EventCategories(events: seq<WasteEvent>): (r: seq<string>)
    ensures Distinct(r)
    ensures forall i :: 0 <= i < |events| ==> events[i].category in r
    ensures forall c :: c in r ==> exists i :: 0 <= i < |events| && events[i].category == c
    decreases |events|
  {
    if events == [] then []
    else
      var prefix := events[..|events| - 1];
      var cats := EventCategories(prefix);
      var c := events[|events| - 1].category;
      assert forall i :: 0 <= i < |prefix| ==> prefix[i] == events[i];
      if c in cats then cats else cats + [c]
  }

  /** A category that no event carries sums to zero. */
  lemma {:induction false} AbsentCategoryIsZero(events: seq<WasteEvent>, c: string)
    requires forall i :: 0 <= i < |events| ==> events[i].category != c
    ensures CategoryTotal(events, c) == 0.0
    decreases |events|
  {
    if events != [] {
      var prefix := events[..|events| - 1];
      assert forall i :: 0 <= i < |prefix| ==> prefix[i] == events[i];
      AbsentCategoryIsZero(prefix, c);
    }
  }

  /** The rows of the grouped query: each category that occurs with its sum. */
  function CategoryRows(events: seq<WasteEvent>): (rows: seq<(string, real)>)
    ensures |rows| == |EventCategories(events)|
    ensures forall i :: 0 <= i < |rows| ==>
      rows[i] == (EventCategories(events)[i], CategoryTotal(events, EventCategories(events)[i]))
  {
    var cats := EventCategories(events);
    seq(|cats|, i requires 0 <= i < |cats| => (cats[i], CategoryTotal(events, cats[i])))
  }

  // ---- the by_category_kg object ----

  /** The property names of a JavaScript object in insertion order, as an association list. */
  function Keys(obj: seq<(string, real)>): (ks: seq<string>)
    ensures |ks| == |obj|
    ensures forall i :: 0 <= i < |obj| ==> ks[i] == obj[i].0
  {
    seq(|obj|, i requires 0 <= i < |obj| => obj[i].0)
  }

  /** `obj[k] = v` for an ordinary string key (neither `"__proto__"` nor an
      array index): an existing property keeps its place and takes the new
      value, a new one is added at the end. */
  function Put(obj: seq<(string, real)>, k: string, v: real): (r: seq<(string, real)>)
    ensures Keys(r) == if k in Keys(obj) then Keys(obj) else Keys(obj) + [k]
    ensures forall i :: 0 <= i < |r| ==> r[i].1 == if r[i].0 == k then v else obj[i].1
    ensures Distinct(Keys(obj)) ==> Distinct(Keys(r))
  {
    if k in Keys(obj) then seq(|obj|, i requires 0 <= i < |obj| => if obj[i].0 == k then (k, v) else obj[i])
    else obj + [(k, v)]
  }

  /** The keys of an object with keys `keys` after `obj[k] = ...` for each `k`
      of `more` in turn: those already present keep their place, new ones are
      appended in the order they arrive. */
  function AddKeys(keys: seq<string>, more: seq<string>): (r: seq<string>)
    ensures |r| >= |keys| && r[..|keys|] == keys
    ensures forall c :: c in r <==> c in keys || c in more
    ensures Distinct(keys) ==> Distinct(r)
    decreases |more|
  {
    if more == [] then keys
    else
      var k := AddKeys(keys, more[..|more| - 1]);
      var c := more[|more| - 1];
      assert more == more[..|more| - 1] + [c];
      if c in k then k else k + [c]
  }

  /** The object after `obj[k] = v` for each row `(k, v)` of `rows` in turn. */
  function PutAll(obj: seq<(string, real)>, rows: seq<(string, real)>): seq<(string, real)>
    decreases |rows|
  {
    if rows == [] then obj else PutAll(Put(obj, rows[0].0, rows[0].1), rows[1..])
  }

  /** The answer of `getOverview`. */
  datatype Overview = Overview(totalWasteKg: real, contaminationEvents: nat, byCategoryKg: seq<(string, real)>)

  function SumValues(obj: seq<(string, real)>): real {
    if obj == [] then 0.0 else obj[0].1 + SumValues(obj[1..])
  }

  /** The sum of the category totals of the given keys. */
  function SumOver(keys: seq<string>, events: seq<WasteEvent>): real {
    if keys == [] then 0.0 else CategoryTotal(events, keys[0]) + SumOver(keys[1..], events)
  }

  lemma {:induction false} SumOverNoEvents(keys: seq<string>)
    ensures SumOver(keys, []) == 0.0
  {
    if keys != [] {
      SumOverNoEvents(keys[1..]);
    }
  }

  /** Appending one event adds its weight to exactly the key it belongs to. */
  lemma {:induction false} SumOverAppend(keys: seq<string>, events: seq<WasteEvent>, e: WasteEvent)
    requires Distinct(keys)
    ensures SumOver(keys, events + [e]) == SumOver(keys, events) + (if e.category in keys then e.weightKg else 0.0)
  {
    if keys != [] {
      assert (events + [e])[..|events|] == events;
      assert Distinct(keys[1..]) by {
        forall i, j | 0 <= i < j < |keys[1..]| ensures keys[1..][i] != keys[1..][j] {
          assert keys[1..][i] == keys[i + 1] && keys[1..][j] == keys[j + 1];
        }
      }
      SumOverAppend(keys[1..], events, e);
      assert e.category in keys <==> e.category == keys[0] || e.category in keys[1..];
      if e.category == keys[0] {
        assert e.category !in keys[1..] by {
          forall j | 0 <= j < |keys[1..]| ensures keys[1..][j] != keys[0] {
            assert keys[1..][j] == keys[j + 1];
          }
        }
      }
    }
  }

  /** The parts sum to the whole: over distinct keys that cover every category
      that occurs, the category totals add up to the grand total. */
  lemma {:induction false} SumOverIsTotal(keys: seq<string>, events: seq<WasteEvent>)
    requires Distinct(keys)
    requires forall i :: 0 <= i < |events| ==> events[i].category in keys
    ensures SumOver(keys, events) == TotalWeight(events)
    decreases |events|
  {
    if events == [] {
      SumOverNoEvents(keys);
    } else {
      var prefix := events[..|events| - 1];
      var e := events[|events| - 1];
      assert events == prefix + [e];
      assert forall i :: 0 <= i < |prefix| ==> prefix[i] == events[i];
      SumOverIsTotal(keys, prefix);
      SumOverAppend(keys, prefix, e);
    }
  }

  /** An object whose every value is its key's category total sums to the total over its keys. */
  lemma {:induction false} SumValuesIsSumOver(obj: seq<(string, real)>, events: seq<WasteEvent>)
    requires forall i :: 0 <= i < |obj| ==> obj[i].1 == CategoryTotal(events, obj[i].0)
    ensures SumValues(obj) == SumOver(Keys(obj), events)
  {
    if obj != [] {
      assert Keys(obj[1..]) == Keys(obj)[1..];
      SumValuesIsSumOver(obj[1..], events);
    }
  }

  /** Once every occurring category has been copied in, each value is its
      key's category total and the values add up to the grand total. */
  lemma CompletedObjectSums(obj: seq<(string, real)>, events: seq<WasteEvent>)
    requires Distinct(Keys(obj))
    requires forall c :: c in Keys(obj) <==> c in Categories || c in EventCategories(events)
    requires forall k :: 0 <= k < |obj| ==>
      obj[k].1 == if obj[k].0 in EventCategories(events) then CategoryTotal(events, obj[k].0) else 0.0
    ensures forall k :: 0 <= k < |obj| ==> obj[k].1 == CategoryTotal(events, obj[k].0)
    ensures SumValues(obj) == TotalWeight(events)
  {
    var cats := EventCategories(events);
    forall k | 0 <= k < |obj| ensures obj[k].1 == CategoryTotal(events, obj[k].0) {
      if obj[k].0 !in cats {
        AbsentCategoryIsZero(events, obj[k].0);
      }
    }
    SumValuesIsSumOver(obj, events);
    SumOverIsTotal(Keys(obj), events);
  }

  /** With no events the object holds exactly the five categories, each at zero. */
  lemma ZeroFilledObject(obj: seq<(string, real)>)
    requires Keys(obj) == Categories
    requires forall k :: 0 <= k < |obj| ==> obj[k].1 == 0.0
    ensures obj == [("plastic", 0.0), ("paper", 0.0), ("metal", 0.0), ("organic", 0.0), ("e_waste", 0.0)]
  {
    assert obj[0] == ("plastic", 0.0) && obj[1] == ("paper", 0.0) && obj[2] == ("metal", 0.0);
    assert obj[3] == ("organic", 0.0) && obj[4] == ("e_waste", 0.0);
  }

  lemma CategoriesDistinct()
    ensures Distinct(Categories)
  {
  }

  /** The object after the groups `done` have been written into the zero-filled
      one: its keys are `AddKeys(Categories, done)`, and each value is its
      category's total if that group has been written and zero otherwise. */
  predicate GroupsCopied(obj: seq<(string, real)>, events: seq<WasteEvent>, done: seq<string>) {
    && Keys(obj) == AddKeys(Categories, done)
    && forall k :: 0 <= k < |obj| ==>
      obj[k].1 == if obj[k].0 in done then CategoryTotal(events, obj[k].0) else 0.0
  }

  /** Writing one more group's total into the object keeps `GroupsCopied`. */
  lemma CopyGroupStep(obj: seq<(string, real)>, events: seq<WasteEvent>, done: seq<string>, c: string)
    requires GroupsCopied(obj, events, done)
    ensures GroupsCopied(Put(obj, c, CategoryTotal(events, c)), events, done + [c])
  {
    assert (done + [c])[..|done|] == done;
  }

  /** Associativity of `+`, stated once so that `PutAllGroups` need not prove
      the sequence equality inline, which is costly there. */
  lemma ConcatAssociative(a: seq<string>, b: seq<string>, c: seq<string>)
    ensures a + (b + c) == (a + b) + c
  {
  }

  /** Writing rows that pair each category of `more` with its total into an
      object with the groups `done` copied gives the groups `done + more` copied. */
  lemma {:induction false} PutAllGroups(obj: seq<(string, real)>, events: seq<WasteEvent>, done: seq<string>,
                                        rows: seq<(string, real)>, more: seq<string>)
    requires GroupsCopied(obj, events, done)
    requires |rows| == |more|
    requires forall i :: 0 <= i < |rows| ==> rows[i] == (more[i], CategoryTotal(events, more[i]))
    ensures GroupsCopied(PutAll(obj, rows), events, done + more)
    decreases |rows|
  {
    if rows == [] {
      assert done + more == done;
    } else {
      CopyGroupStep(obj, events, done, more[0]);
      PutAllGroups(Put(obj, more[0], CategoryTotal(events, more[0])), events, done + [more[0]], rows[1..], more[1..]);
      assert more == [more[0]] + more[1..];
      ConcatAssociative(done, [more[0]], more[1..]);
    }
  }

  /** The object with every occurring group copied into the zero-filled one:
      distinct keys, the five categories first, exactly the fixed and the
      occurring categories, each at its total, summing to the grand total. */
  lemma OverviewFacts(obj: seq<(string, real)>, events: seq<WasteEvent>)
    requires GroupsCopied(obj, events, EventCategories(events))
    ensures Distinct(Keys(obj))
    ensures |obj| >= |Categories| && Keys(obj)[..|Categories|] == Categories
    ensures forall c :: c in Keys(obj) <==>
      c in Categories || exists i :: 0 <= i < |events| && events[i].category == c
    ensures forall k :: 0 <= k < |obj| ==> obj[k].1 == CategoryTotal(events, obj[k].0)
    ensures SumValues(obj) == TotalWeight(events)
    ensures events == [] ==>
      obj == [("plastic", 0.0), ("paper", 0.0), ("metal", 0.0), ("organic", 0.0), ("e_waste", 0.0)]
  {
    CategoriesDistinct();
    CompletedObjectSums(obj, events);
    if events == [] {
      assert Keys(obj) == Categories;
      ZeroFilledObject(obj);
    }
  }

  /** `for (const category of CATEGORIES) byCategory[category] = 0` on an empty object. */
  method ZeroFilled() returns (obj: seq<(string, real)>)
    ensures Keys(obj) == Categories
    ensures forall k :: 0 <= k < |obj| ==> obj[k].1 == 0.0
  {
    CategoriesDistinct();
    obj := [];
    for i := 0 to |Categories|
      invariant Keys(obj) == Categories[..i]
      invariant forall k :: 0 <= k < |obj| ==> obj[k].1 == 0.0
    {
      assert forall k :: 0 <= k < i ==> Categories[..i][k] == Categories[k] != Categories[i];
      obj := Put(obj, Categories[i], 0.0);
    }
    assert Categories[..|Categories|] == Categories;
  }

  /** `for (const r of categoryRows) byCategory[r.category] = r.total_kg || 0`:
      each grouped row is written into the object in turn. */
  method CopyRows(obj: seq<(string, real)>, rows: seq<(string, real)>) returns (r: seq<(string, real)>)
    ensures r == PutAll(obj, rows)
  {
    r := obj;
    for j := 0 to |rows|
      invariant PutAll(r, rows[j..]) == PutAll(obj, rows)
    {
      assert rows[j..][1..] == rows[j + 1..];
      r := Put(r, rows[j].0, rows[j].1);
    }
  }

  /** `getOverview`: zero-fill the five categories, then copy in the grouped sums. */
  method GetOverview(events: seq<WasteEvent>) returns (o: Overview)
    ensures o.totalWasteKg == TotalWeight(events)
    ensures o.contaminationEvents == ContaminationCount(events)
    ensures Distinct(Keys(o.byCategoryKg))
    ensures Keys(o.byCategoryKg) == AddKeys(Categories, EventCategories(events))
    ensures |o.byCategoryKg| >= |Categories| && Keys(o.byCategoryKg)[..|Categories|] == Categories
    ensures forall c :: c in Keys(o.byCategoryKg) <==>
      c in Categories || exists i :: 0 <= i < |events| && events[i].category == c
    ensures forall i :: 0 <= i < |o.byCategoryKg| ==>
      o.byCategoryKg[i].1 == CategoryTotal(events, o.byCategoryKg[i].0)
    ensures SumValues(o.byCategoryKg) == o.totalWasteKg
    ensures events == [] ==>
      o.totalWasteKg == 0.0 && o.contaminationEvents == 0 &&
      o.byCategoryKg == [("plastic", 0.0), ("paper", 0.0), ("metal", 0.0), ("organic", 0.0), ("e_waste", 0.0)]
  {
    var total := TotalWeight(events);
    var contaminated := ContaminationCount(events);

    var zeroed := ZeroFilled();
    var rows := CategoryRows(events);
    var byCategory := CopyRows(zeroed, rows);
    PutAllGroups(zeroed, events, [], rows, EventCategories(events));
    assert [] + EventCategories(events) == EventCategories(events);
    OverviewFacts(byCategory, events);
    o := Overview(total, contaminated, byCategory);
  }
}
