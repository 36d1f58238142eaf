/** The filter stores of the timetable and of the defect list: a map from
    a filter's key to its `visible` predicate, and the conjunction of all
    registered predicates deciding what is shown. */
module Filters {
  /** `every(invokeMap(values(filters), "visible", c))`: every registered
      filter accepts `c`, whatever the order in which the values are listed. */
  predicate Accepted<T>(filters: map<string, T -> bool>, c: T): (r: bool)
    ensures forall ks :: (forall k :: k in ks <==> k in filters) ==> (r <==> EveryOf(filters, ks, c))
  {
    EveryOfAnyListing(filters, c);
    forall k :: k in filters ==> filters[k](c)
  }

  /** `every` over the filters listed by `ks`, left to right. */
  predicate EveryOf<T>(filters: map<string, T -> bool>, ks: seq<string>, c: T)
    requires forall k :: k in ks ==> k in filters
  {
    ks == [] || (filters[ks[0]](c) && EveryOf(filters, ks[1..], c))
  }

  lemma {:induction false} EveryOfAll<T>(filters: map<string, T -> bool>, ks: seq<string>, c: T)
    requires forall k :: k in ks ==> k in filters
    ensures EveryOf(filters, ks, c) <==> forall i :: 0 <= i < |ks| ==> filters[ks[i]](c)
  {
    if ks != [] {
      EveryOfAll(filters, ks[1..], c);
      assert forall i :: 1 <= i < |ks| ==> ks[i] == ks[1..][i - 1];
      if forall i :: 1 <= i < |ks| ==> filters[ks[i]](c) {
        assert forall i :: 0 <= i < |ks[1..]| ==> filters[ks[1..][i]](c) by {
          forall i | 0 <= i < |ks[1..]| ensures filters[ks[1..][i]](c) {
            assert ks[1..][i] == ks[i + 1];
          }
        }
      }
    }
  }

  lemma EveryOfAnyListing<T>(filters: map<string, T -> bool>, c: T)
    ensures forall ks :: (forall k :: k in ks <==> k in filters) ==>
      ((forall k :: k in filters ==> filters[k](c)) <==> EveryOf(filters, ks, c))
  {
    forall ks | forall k :: k in ks <==> k in filters
      ensures (forall k :: k in filters ==> filters[k](c)) <==> EveryOf(filters, ks, c)
    {
      EveryOfAll(filters, ks, c);
      forall k | k in filters ensures exists i :: 0 <= i < |ks| && ks[i] == k {
        assert k in ks;
      }
    }
  }

  /** `Accepted` without the filter under `k`. */
  function Without<T>(filters: map<string, T -> bool>, k: string): (r: map<string, T -> bool>)
    ensures k !in r
    ensures forall j :: j in r <==> j in filters && j != k
    ensures forall j :: j in r ==> r[j] == filters[j]
  {
    map j | j in filters && j != k :: filters[j]
  }
}

/** What every filter store guarantees. */
module FiltersProperties {
  import opened Filters

  /** With no filter registered everything is shown. */
  lemma NothingRegisteredShowsAll<T>(c: T)
    ensures Accepted(map[], c)
  {
  }

  /** Registering `f` under `k` shows exactly what the other filters and
      `f` all accept: the filter under `k`, if any, is replaced. */
  lemma RegisterReplaces<T>(filters: map<string, T -> bool>, k: string, f: T -> bool, c: T)
    ensures Accepted(filters[k := f], c) <==> Accepted(Without(filters, k), c) && f(c)
  {
    var r := filters[k := f];
    if Accepted(Without(filters, k), c) && f(c) {
      forall j | j in r ensures r[j](c) {
        if j != k {
          assert j in Without(filters, k);
        }
      }
    }
    if Accepted(r, c) {
      assert r[k](c);
      var w := Without(filters, k);
      forall j | j in w ensures w[j](c) {
        assert j in r && r[j] == w[j];
      }
    }
  }

  /** Registering under a fresh key never shows a hidden item. */
  lemma RegisterFreshNarrows<T>(filters: map<string, T -> bool>, k: string, f: T -> bool, c: T)
    requires k !in filters
    ensures Accepted(filters[k := f], c) <==> Accepted(filters, c) && f(c)
  {
    RegisterReplaces(filters, k, f, c);
    assert Without(filters, k) == filters;
  }

  /** Registering under a key already present shows what the others show
      when the new filter accepts, so re-registering the same filter shows
      the same items. */
  lemma ReRegisterSameFilter<T>(filters: map<string, T -> bool>, k: string, c: T)
    requires k in filters
    ensures Accepted(filters[k := filters[k]], c) <==> Accepted(filters, c)
  {
    assert filters[k := filters[k]] == filters;
  }
}

/** The timetable's filter store. The course records of `courses.ts` are
    not part of this model, so the course type is a parameter. */
module TimetableFilters {
  import opened Filters

  class FilterStore<Course> {
    var filters: map<string, Course -> bool>

    /** The store starts with no filter. */
    constructor ()
      ensures filters == map[]
    {
      filters := map[];
    }

    /** The `visible` getter: every registered filter, listed in any
        order, accepts the item. */
    predicate Visible(c: Course): (r: bool)
      reads this
      ensures forall ks :: (forall k :: k in ks <==> k in filters) ==> (r <==> EveryOf(filters, ks, c))
    {
      Accepted(filters, c)
    }

    /** The `registerFilter` mutation, which also updates a filter. */
    method RegisterFilter(k: string, f: Course -> bool)
      modifies this
      ensures filters == old(filters)[k := f]
    {
      filters := filters[k := f];
    }

    /** The `clearFilters` mutation only notifies subscribers: the state
        does not change. */
    method ClearFilters()
      ensures filters == old(filters)
    {
    }
  }
}

/** The defect list's own copy of the filter store. */
module DefectFilters {
  import opened Filters
  import opened DefectModels

  class FilterStore {
    var filters: map<string, DefectInfo -> bool>

    /** The store starts with no filter. */
    constructor ()
      ensures filters == map[]
    {
      filters := map[];
    }

    /** The `visible` getter: every registered filter, listed in any
        order, accepts the item. */
    predicate Visible(d: DefectInfo): (r: bool)
      reads this
      ensures forall ks :: (forall k :: k in ks <==> k in filters) ==> (r <==> EveryOf(filters, ks, d))
    {
      Accepted(filters, d)
    }

    /** The `registerFilter` mutation. */
    method RegisterFilter(k: string, f: DefectInfo -> bool)
      modifies this
      ensures filters == old(filters)[k := f]
    {
      filters := filters[k := f];
    }
  }
}
