/** `voorbereiding` of the group `Ruimtelijke plannen`
    (`src/controles/01-ruimtelijke-plannen/ruimtelijke-plannen.ts`): the search shape
    around the footprint and the choice of the zoning plan (`bestemmingsplan`) the
    group's checks run against. The plans of the API response are a parameter. */
module RuimtelijkePlannen {
  import opened Wrappers
  import opened JsValues

  // ----- the search shape -----

  /** `{ _geo: { contains: { type, coordinates } } }`. */
  datatype GeoShape<C> = GeoShape(containsType: string, coordinates: seq<C>)

  /** The footprint's coordinates as the single ring of a polygon. */
  function GeoShapeOf<C>(footprint: C): (r: GeoShape<C>)
    ensures r.containsType == "Polygon" && |r.coordinates| == 1
  {
    GeoShape("Polygon", [footprint])
  }

  /** The outer ring of a polygon search shape. */
  function OuterRing<C>(g: GeoShape<C>): Option<C> {
    if g.containsType == "Polygon" && |g.coordinates| >= 1 then Some(g.coordinates[0]) else None
  }

  /** The footprint is the polygon's outer ring, and nothing else is in the shape. */
  lemma GeoShapeHoldsFootprint<C>(footprint: C)
    ensures OuterRing(GeoShapeOf(footprint)) == Some(footprint)
    ensures GeoShapeOf(footprint).coordinates == [footprint]
  {
  }

  // ----- string order -----

  /** JavaScript's `<` on two strings: code unit by code unit, a proper prefix first. */
  predicate Less(a: string, b: string)
    decreases |a|
  {
    if |a| == 0 then |b| > 0
    else if |b| == 0 then false
    else if a[0] != b[0] then a[0] < b[0]
    else Less(a[1..], b[1..])
  }

  lemma {:induction false} LessIrreflexive(a: string)
    ensures !Less(a, a)
    decreases |a|
  {
    if |a| > 0 {
      LessIrreflexive(a[1..]);
    }
  }

  lemma {:induction false} LessTransitive(a: string, b: string, c: string)
    requires Less(a, b) && Less(b, c)
    ensures Less(a, c)
    decreases |a|
  {
    if |a| > 0 && a[0] == b[0] && b[0] == c[0] {
      LessTransitive(a[1..], b[1..], c[1..]);
    }
  }

  /** Two different strings are ordered one way or the other. */
  lemma {:induction false} LessTotal(a: string, b: string)
    requires a != b
    ensures Less(a, b) || Less(b, a)
    decreases |a|
  {
    if |a| > 0 && |b| > 0 && a[0] == b[0] {
      assert a == [a[0]] + a[1..] && b == [b[0]] + b[1..];
      LessTotal(a[1..], b[1..]);
    }
  }

  lemma {:induction false} LessAsymmetric(a: string, b: string)
    requires Less(a, b)
    ensures !Less(b, a)
    decreases |a|
  {
    if |a| > 0 && a[0] == b[0] {
      LessAsymmetric(a[1..], b[1..]);
    }
  }

  /** "Not after" is transitive. */
  lemma NotLessTransitive(a: string, b: string, c: string)
    requires !Less(a, b) && !Less(b, c)
    ensures !Less(a, c)
  {
    if Less(a, c) {
      if a == b {
      } else {
        LessTotal(a, b);
        LessTransitive(b, a, c);
        LessAsymmetric(b, c);
      }
    }
  }

  // ----- the plans -----

  /** A plan of the response: its id, the `isParapluplan` value, the `dossier.status`
      value (`undefined` without a dossier) and `planstatusInfo.datum`. */
  datatype Plan = Plan(id: string, parapluplan: Js, status: Js, datum: string)

  /** The names an array inherits from `Array.prototype` and `Object.prototype`
      (ECMAScript 2023), all of which the `in` operator finds. */
  predicate Inherited(k: string) {
    || k == "at" || k == "concat" || k == "constructor" || k == "copyWithin" || k == "entries"
    || k == "every" || k == "fill" || k == "filter" || k == "find" || k == "findIndex"
    || k == "findLast" || k == "findLastIndex" || k == "flat" || k == "flatMap" || k == "forEach"
    || k == "includes" || k == "indexOf" || k == "join" || k == "keys" || k == "lastIndexOf"
    || k == "map" || k == "pop" || k == "push" || k == "reduce" || k == "reduceRight"
    || k == "reverse" || k == "shift" || k == "slice" || k == "some" || k == "sort"
    || k == "splice" || k == "toLocaleString" || k == "toReversed" || k == "toSorted"
    || k == "toSpliced" || k == "toString" || k == "unshift" || k == "values" || k == "with"
    || k == "hasOwnProperty" || k == "isPrototypeOf" || k == "propertyIsEnumerable"
    || k == "valueOf" || k == "__proto__" || k == "__defineGetter__" || k == "__defineSetter__"
    || k == "__lookupGetter__" || k == "__lookupSetter__"
  }

  /** The keys of the three-element array literal itself. */
  predicate OwnKey(k: string) {
    k == "0" || k == "1" || k == "2" || k == "length"
  }

  /** `v in ['in voorbereiding', 'vastgesteld', 'niet in werking']`: `v` is turned into
      a property key and looked up among the array's keys. `undefined`, `null`,
      booleans and plain objects become keys no array has; a number is a key only as
      0, 1 or 2; a one-element array becomes the key of its element, any other array
      a key with a comma or the empty key. */
  predicate InStatusArray(v: Js)
    decreases v
  {
    match v
    case Str(s) => OwnKey(s) || Inherited(s)
    case Num(n) => n == 0.0 || n == 1.0 || n == 2.0
    case Arr(items) => |items| == 1 && !items[0].Undefined? && !items[0].Null? && InStatusArray(items[0])
    case _ => false
  }

  const ListedStatuses: seq<string> := ["in voorbereiding", "vastgesteld", "niet in werking"]

  /** The filter as written: not a parapluplan, and the status not a key of the array. */
  predicate RelevantAsWritten(p: Plan) {
    !Truthy(p.parapluplan) && !InStatusArray(p.status)
  }

  /** The filter as intended: not a parapluplan, and the status none of the three. */
  predicate Relevant(p: Plan) {
    !Truthy(p.parapluplan) && !(p.status.Str? && p.status.s in ListedStatuses)
  }

  /** No listed status is a key of the array: as written, the filter keeps every
      plan with one of those statuses that is not a parapluplan. */
  lemma ListedStatusesKept(p: Plan)
    requires p.status.Str? && p.status.s in ListedStatuses
    ensures RelevantAsWritten(p) <==> !Truthy(p.parapluplan)
    ensures !Relevant(p)
  {
    InheritedKeysDiffer();
  }

  /** No inherited name is one of the listed statuses. */
  lemma InheritedKeysDiffer()
    ensures forall k :: k in ListedStatuses ==> !Inherited(k)
  {
    forall k | k in ListedStatuses
      ensures !Inherited(k)
    {
      ListedShape(k);
      if Inherited(k) {
        InheritedShape(k);
      }
    }
  }

  lemma ListedShape(k: string)
    requires k in ListedStatuses
    ensures |k| == 15 || (|k| == 16 && k[0] == 'i') || (|k| == 11 && k[0] == 'v')
  {
  }

  /** The lengths and first characters that tell the inherited names apart from the
      listed statuses. */
  lemma InheritedShape(k: string)
    requires Inherited(k)
    ensures |k| != 15 && (|k| == 16 ==> k[0] == '_') && (|k| == 11 ==> k[0] != 'v')
  {
  }

  /** For a status string, the filter as written removes exactly the parapluplans and
      the plans whose status names an array key. */
  lemma RelevantAsWrittenForStrings(p: Plan)
    requires p.status.Str?
    ensures RelevantAsWritten(p) <==>
      !Truthy(p.parapluplan) && !OwnKey(p.status.s) && !Inherited(p.status.s)
  {
  }

  /** Both filters remove every parapluplan. */
  lemma ParapluplansRemoved(p: Plan)
    requires Truthy(p.parapluplan)
    ensures !RelevantAsWritten(p) && !Relevant(p)
  {
  }

  /** `plans.filter(keep)`: the plans that pass, in order. */
  function Filter(keep: Plan -> bool, plans: seq<Plan>): (r: seq<Plan>)
    ensures |r| <= |plans|
    ensures forall k :: 0 <= k < |r| ==> keep(r[k]) && r[k] in plans
    ensures forall k :: 0 <= k < |plans| && keep(plans[k]) ==> plans[k] in r
  {
    if |plans| == 0 then []
    else (if keep(plans[0]) then [plans[0]] else []) + Filter(keep, plans[1..])
  }

  /** One plan is kept or dropped on its own. */
  lemma FilterSingle(keep: Plan -> bool, p: Plan)
    ensures Filter(keep, [p]) == if keep(p) then [p] else []
  {
    assert [p][1..] == [];
  }

  /** Filtering distributes over concatenation, so the kept plans stay in API order
      and each keeps its multiplicity. */
  lemma {:induction false} FilterAppend(keep: Plan -> bool, a: seq<Plan>, b: seq<Plan>)
    ensures Filter(keep, a + b) == Filter(keep, a) + Filter(keep, b)
  {
    if |a| > 0 {
      assert (a + b)[0] == a[0];
      assert (a + b)[1..] == a[1..] + b;
      FilterAppend(keep, a[1..], b);
    } else {
      assert a + b == b;
    }
  }

  // ----- sorting by date -----

  predicate SortedByDatum(s: seq<Plan>) {
    forall i, j :: 0 <= i < j < |s| ==> !Less(s[j].datum, s[i].datum)
  }

  /** Stable insertion: `p` goes before the first plan with a later date, so after
      every plan with the same date. */
  function Insert(p: Plan, s: seq<Plan>): (r: seq<Plan>)
    ensures multiset(r) == multiset(s) + multiset{p}
    ensures |r| == |s| + 1
  {
    if |s| == 0 then [p]
    else if Less(p.datum, s[0].datum) then [p] + s
    else
      assert s == [s[0]] + s[1..];
      [s[0]] + Insert(p, s[1..])
  }

  lemma {:induction false} InsertSorted(p: Plan, s: seq<Plan>)
    requires SortedByDatum(s)
    ensures SortedByDatum(Insert(p, s))
    decreases |s|
  {
    if |s| > 0 && !Less(p.datum, s[0].datum) {
      InsertSorted(p, s[1..]);
      var t := Insert(p, s[1..]);
      assert Insert(p, s) == [s[0]] + t;
      InsertAbove(p, s[1..], s[0].datum);
      ConsSorted(s[0], t);
    } else if |s| > 0 {
      forall j | 0 <= j < |s|
        ensures !Less(s[j].datum, p.datum)
      {
        if Less(s[j].datum, p.datum) {
          if j > 0 {
            LessTransitive(s[j].datum, p.datum, s[0].datum);
          }
          LessAsymmetric(s[j].datum, p.datum);
        }
      }
      ConsSorted(p, s);
    }
  }

  /** A plan dated no earlier than every plan of a sorted sequence can go in front. */
  lemma ConsSorted(x: Plan, t: seq<Plan>)
    requires SortedByDatum(t)
    requires forall j :: 0 <= j < |t| ==> !Less(t[j].datum, x.datum)
    ensures SortedByDatum([x] + t)
  {
    var r := [x] + t;
    forall i, j | 0 <= i < j < |r|
      ensures !Less(r[j].datum, r[i].datum)
    {
      assert r[j] == t[j - 1];
      if i > 0 {
        assert r[i] == t[i - 1];
      }
    }
  }

  /** Inserting keeps a lower bound every plan already respects. */
  lemma {:induction false} InsertAbove(p: Plan, s: seq<Plan>, lo: string)
    requires !Less(p.datum, lo)
    requires forall i :: 0 <= i < |s| ==> !Less(s[i].datum, lo)
    ensures forall j :: 0 <= j < |Insert(p, s)| ==> !Less(Insert(p, s)[j].datum, lo)
    decreases |s|
  {
    if |s| > 0 && !Less(p.datum, s[0].datum) {
      InsertAbove(p, s[1..], lo);
      assert Insert(p, s) == [s[0]] + Insert(p, s[1..]);
    }
  }

  /** `plans.sort(...)` with the comparator on `planstatusInfo.datum`. The sort is
      stable, so its result is that of this insertion sort. */
  function SortByDatum(plans: seq<Plan>): (r: seq<Plan>)
    ensures multiset(r) == multiset(plans)
    ensures |r| == |plans|
    decreases |plans|
  {
    if |plans| == 0 then []
    else
      assert plans == plans[..|plans| - 1] + [plans[|plans| - 1]];
      Insert(plans[|plans| - 1], SortByDatum(plans[..|plans| - 1]))
  }

  lemma {:induction false} SortByDatumSorted(plans: seq<Plan>)
    ensures SortedByDatum(SortByDatum(plans))
    decreases |plans|
  {
    if |plans| > 0 {
      SortByDatumSorted(plans[..|plans| - 1]);
      InsertSorted(plans[|plans| - 1], SortByDatum(plans[..|plans| - 1]));
    }
  }

  // ----- the latest plan -----

  /** The position of the plan the code selects, computed without sorting: reading in
      order, a plan replaces the best so far unless its date is earlier. */
  function LatestIndex(plans: seq<Plan>): (k: nat)
    requires |plans| > 0
    ensures k < |plans|
    decreases |plans|
  {
    if |plans| == 1 then 0
    else
      var b := LatestIndex(plans[..|plans| - 1]);
      if Less(plans[|plans| - 1].datum, plans[b].datum) then b else |plans| - 1
  }

  /** The latest plan has no plan with a later date, and every plan after it in API
      order has an earlier date: among plans of the latest date it is the last. */
  lemma {:induction false} LatestIndexIsLatest(plans: seq<Plan>)
    requires |plans| > 0
    ensures var k := LatestIndex(plans);
      && (forall i :: 0 <= i < |plans| ==> !Less(plans[k].datum, plans[i].datum))
      && (forall i :: k < i < |plans| ==> Less(plans[i].datum, plans[k].datum))
    decreases |plans|
  {
    var n := |plans|;
    if n == 1 {
      LessIrreflexive(plans[0].datum);
    } else {
      var front := plans[..n - 1];
      LatestIndexIsLatest(front);
      var b := LatestIndex(front);
      var x := plans[n - 1];
      assert forall i :: 0 <= i < n - 1 ==> plans[i] == front[i];
      if Less(x.datum, plans[b].datum) {
        LessAsymmetric(x.datum, plans[b].datum);
      } else {
        LessIrreflexive(x.datum);
        forall i | 0 <= i < n - 1
          ensures !Less(x.datum, plans[i].datum)
        {
          NotLessTransitive(x.datum, plans[b].datum, plans[i].datum);
        }
      }
    }
  }

  /** Inserting into a sorted list: the last plan stays last unless the new plan's
      date is not earlier. */
  lemma {:induction false} LastOfInsert(p: Plan, s: seq<Plan>)
    requires |s| > 0 && SortedByDatum(s)
    ensures var r := Insert(p, s);
      r[|r| - 1] == if Less(p.datum, s[|s| - 1].datum) then s[|s| - 1] else p
    decreases |s|
  {
    if Less(p.datum, s[0].datum) {
      var last := s[|s| - 1];
      if s[0].datum != last.datum {
        LessTotal(s[0].datum, last.datum);
        LessTransitive(p.datum, s[0].datum, last.datum);
      }
    } else if |s| > 1 {
      assert SortedByDatum(s[1..]) by {
        forall i, j | 0 <= i < j < |s[1..]|
          ensures !Less(s[1..][j].datum, s[1..][i].datum)
        {
          assert s[1..][j] == s[j + 1] && s[1..][i] == s[i + 1];
        }
      }
      LastOfInsert(p, s[1..]);
    }
  }

  /** The last plan after the stable sort is the latest plan. */
  lemma {:induction false} LastOfSortIsLatest(plans: seq<Plan>)
    requires |plans| > 0
    ensures var s := SortByDatum(plans); s[|s| - 1] == plans[LatestIndex(plans)]
    decreases |plans|
  {
    var n := |plans|;
    if n > 1 {
      var front := plans[..n - 1];
      var sf := SortByDatum(front);
      var b := LatestIndex(front);
      LastOfSortIsLatest(front);
      SortByDatumSorted(front);
      LastOfInsert(plans[n - 1], sf);
      assert SortByDatum(plans) == Insert(plans[n - 1], sf);
      assert plans[b] == front[b];
      assert sf[|sf| - 1] == plans[b];
      assert LatestIndex(plans) == if Less(plans[n - 1].datum, plans[b].datum) then b else n - 1;
    }
  }

  // ----- voorbereiding -----

  /** The data the group prepares: the selected plan and the search shape. */
  datatype GroupData<C> = GroupData(bestemmingsplan: Plan, geoShape: GeoShape<C>)

  /** The selection after filtering: the last plan after sorting; reading `.id` of the
      missing plan of an empty list throws a TypeError. */
  function SelectPlan(relevant: seq<Plan>): (r: Result<Plan>)
    ensures r.Err? <==> relevant == []
    ensures r.Err? ==> r.error == TypeError
    ensures r.Ok? ==> r.value in relevant
  {
    if |relevant| == 0 then Err(TypeError)
    else
      var s := SortByDatum(relevant);
      assert s[|s| - 1] in multiset(relevant);
      Ok(s[|s| - 1])
  }

  /** `voorbereiding` with the filter as written. */
  function VoorbereidingAsWritten<C>(footprint: C, plans: seq<Plan>): (r: Result<GroupData<C>>)
    ensures r.Ok? ==> RelevantAsWritten(r.value.bestemmingsplan) && r.value.bestemmingsplan in plans
    ensures r.Ok? ==> r.value.geoShape == GeoShapeOf(footprint)
  {
    var relevant := Filter(RelevantAsWritten, plans);
    var plan :- SelectPlan(relevant);
    Ok(GroupData(plan, GeoShapeOf(footprint)))
  }

  /** `voorbereiding` with the status filter as intended. */
  function Voorbereiding<C>(footprint: C, plans: seq<Plan>): (r: Result<GroupData<C>>)
    ensures r.Ok? ==> Relevant(r.value.bestemmingsplan) && r.value.bestemmingsplan in plans
    ensures r.Ok? ==> r.value.geoShape == GeoShapeOf(footprint)
  {
    var relevant := Filter(Relevant, plans);
    var plan :- SelectPlan(relevant);
    Ok(GroupData(plan, GeoShapeOf(footprint)))
  }

  /** The selected plan is the latest one. */
  lemma SelectPlanIsLatest(relevant: seq<Plan>)
    requires relevant != []
    ensures SelectPlan(relevant) == Ok(relevant[LatestIndex(relevant)])
  {
    LastOfSortIsLatest(relevant);
  }

  /** The group fails with a TypeError exactly when no relevant plan is left; otherwise
      the plan is a relevant plan of the latest date, the last such in API order. */
  lemma VoorbereidingSelectsLatest<C>(footprint: C, plans: seq<Plan>)
    ensures var relevant := Filter(Relevant, plans);
      && (relevant == [] ==> Voorbereiding(footprint, plans) == Err(TypeError))
      && (relevant != [] ==>
            Voorbereiding(footprint, plans) == Ok(GroupData(relevant[LatestIndex(relevant)], GeoShapeOf(footprint))))
  {
    var relevant := Filter(Relevant, plans);
    if relevant != [] {
      SelectPlanIsLatest(relevant);
    }
  }

  /** As the program runs it: a TypeError exactly when nothing passes the filter as
      written; otherwise the passing plan of the latest date, the last such in API
      order. */
  lemma VoorbereidingAsWrittenSelectsLatest<C>(footprint: C, plans: seq<Plan>)
    ensures var kept := Filter(RelevantAsWritten, plans);
      && (kept == [] ==> VoorbereidingAsWritten(footprint, plans) == Err(TypeError))
      && (kept != [] ==>
            VoorbereidingAsWritten(footprint, plans) == Ok(GroupData(kept[LatestIndex(kept)], GeoShapeOf(footprint))))
  {
    var kept := Filter(RelevantAsWritten, plans);
    if kept != [] {
      SelectPlanIsLatest(kept);
    }
  }

  /** A plan that is not a parapluplan and is `vastgesteld` is selected as written,
      and the intended filter leaves nothing to select. */
  lemma AdoptedPlanSelectedAsWritten<C>(footprint: C, p: Plan)
    requires !Truthy(p.parapluplan) && p.status == Str("vastgesteld")
    ensures VoorbereidingAsWritten(footprint, [p]) == Ok(GroupData(p, GeoShapeOf(footprint)))
    ensures Voorbereiding(footprint, [p]) == Err(TypeError)
  {
    assert "vastgesteld" in ListedStatuses;
    ListedStatusesKept(p);
    assert Filter(RelevantAsWritten, [p]) == [p];
    assert Filter(Relevant, [p]) == [];
  }
}
