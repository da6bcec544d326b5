/** The admission order of the planner: strict, so the units of a plan have one order only. */
module PlannerOrder {
  import opened Planner
  import opened Text
  import opened Sorting

  lemma BeforeTransitive(a: Unit, b: Unit, c: Unit)
    requires Before(a, b) && Before(b, c)
    ensures Before(a, c)
  {
    LessIsStrict();
  }

  lemma BeforeIsStrict()
    ensures StrictOrder(Before)
  {
    forall x: Unit ensures !Before(x, x) { LessIsStrict(); }
    forall x, y, z | Before(x, y) && Before(y, z) ensures Before(x, z) { BeforeTransitive(x, y, z); }
  }

  lemma PlacesDecide(a: Unit, b: Unit)
    requires a.Place() != b.Place()
    ensures Before(a, b) || Before(b, a)
  {
    LessTotal(a.key, b.key);
  }

  lemma {:induction false} GatherKeyed(segments: seq<Segment>, recent: seq<nat>)
    ensures Keyed(Gather(segments, recent))
  {
    if segments != [] { GatherKeyed(segments[..|segments| - 1], recent); }
  }

  ghost predicate Holds(units: Units, u: Unit) {
    u.Place() in units && units[u.Place()] == u
  }

  ghost predicate DistinctPlaces(us: seq<Unit>) {
    forall i, j | 0 <= i < j < |us| :: us[i].Place() != us[j].Place()
  }

  lemma {:induction false} ListedAre(units: Units)
    requires Keyed(units)
    ensures forall u :: u in Listed(units) <==> Holds(units, u)
    ensures DistinctPlaces(Listed(units))
    decreases |units|
  {
    if units != map[] {
      var k :| k in units && Listed(units) == [units[k]] + Listed(units - {k});
      var rest := units - {k};
      ListedAre(rest);
      forall u ensures u in Listed(units) <==> Holds(units, u) {
        assert u in Listed(units) <==> u == units[k] || u in Listed(rest);
      }
      forall j | 0 <= j < |Listed(rest)| ensures Listed(rest)[j].Place() != units[k].Place() {
        assert Holds(rest, Listed(rest)[j]);
      }
    }
  }

  lemma DistinctComparable(us: seq<Unit>)
    requires DistinctPlaces(us)
    ensures Comparable(Before, us)
  {
    forall i, j | 0 <= i < j < |us| ensures Before(us[i], us[j]) || Before(us[j], us[i]) {
      PlacesDecide(us[i], us[j]);
    }
  }

  /** The order of admission holds each unit once, and strictly ascends. */
  lemma OrderIs(units: Units)
    requires Keyed(units)
    ensures Ascending(Before, Order(units))
    ensures forall u :: u in Order(units) <==> Holds(units, u)
    ensures DistinctPlaces(Order(units))
  {
    BeforeIsStrict();
    ListedAre(units);
    DistinctComparable(Listed(units));
    SortAscending(Before, Listed(units));
    SameMembers(Order(units), Listed(units));
    var us := Order(units);
    forall i, j | 0 <= i < j < |us| ensures us[i].Place() != us[j].Place() {
      assert Before(us[i], us[j]);
      assert us[i] in us && us[j] in us;
      assert Holds(units, us[i]) && Holds(units, us[j]);
    }
  }

  /** Any ascending list of exactly these units is the order of admission. */
  lemma OrderUnique(units: Units, us: seq<Unit>)
    requires Keyed(units) && Ascending(Before, us)
    requires forall u :: u in us <==> Holds(units, u)
    ensures us == Order(units)
  {
    BeforeIsStrict();
    OrderIs(units);
    AscendingUnique(Before, us, Order(units));
  }
}
