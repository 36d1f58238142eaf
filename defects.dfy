/** The defect records the defect list works with. */
module DefectModels {
  datatype DefectState = Reported | CannotBeDone | LongerProblem | Done

  /** A defect as the page receives it; the dates are kept as the text
      the server sends. */
  datatype DefectInfo = DefectInfo(
    id: int,
    name: string,
    creationDate: string,
    lastModification: string,
    place: string,
    state: DefectState,
    selected: bool,
    stateId: int,
    statusColor: string)
}

/** The defects store and its `setDefects` mutation. */
module DefectStore {
  import opened Common
  import opened DefectModels

  /** The array after `ds` has been written over `prev` index by index:
      the writes go from index 0 up, each one either replacing an entry or,
      past the end, appending one. */
  function Overwrite<T>(prev: seq<T>, ds: seq<T>): seq<T>
  {
    if ds == [] then prev
    else
      var before := Overwrite(prev, ds[..|ds| - 1]);
      var id := |ds| - 1;
      if id < |before| then before[id := ds[id]] else before + [ds[id]]
  }

  class Store {
    var defects: seq<DefectInfo>

    /** The store starts empty. */
    constructor ()
      ensures defects == []
    {
      defects := [];
    }

    /** The `setDefects` mutation. */
    method SetDefects(ds: seq<DefectInfo>)
      modifies this
      ensures defects == Overwrite(old(defects), ds)
    {
      for id := 0 to |ds|
        invariant defects == Overwrite(old(defects), ds[..id])
      {
        assert ds[..id + 1][..id] == ds[..id];
        if id < |defects| {
          defects := defects[id := ds[id]];
        } else {
          defects := defects + [ds[id]];
        }
      }
      assert ds[..|ds|] == ds;
    }
  }
}

/** What `setDefects` guarantees. */
module DefectStoreProperties {
  import opened Common
  import opened DefectStore

  /** The written entries come from `ds`, the others keep their old
      values, and the array grows only as far as `ds` reaches. */
  lemma {:induction false} OverwriteEntries<T>(prev: seq<T>, ds: seq<T>)
    ensures |Overwrite(prev, ds)| == Max(|prev|, |ds|)
    ensures forall i :: 0 <= i < |ds| ==> Overwrite(prev, ds)[i] == ds[i]
    ensures forall i :: |ds| <= i < |prev| ==> Overwrite(prev, ds)[i] == prev[i]
  {
    if ds != [] {
      OverwriteEntries(prev, ds[..|ds| - 1]);
    }
  }

  /** The same, as one closed form: `ds` followed by what is left of the
      old array past its end. */
  lemma OverwriteClosedForm<T>(prev: seq<T>, ds: seq<T>)
    ensures Overwrite(prev, ds) == ds + prev[Min(|ds|, |prev|)..]
  {
    OverwriteEntries(prev, ds);
    var r := Overwrite(prev, ds);
    var c := ds + prev[Min(|ds|, |prev|)..];
    assert |r| == |c|;
    forall i | 0 <= i < |r| ensures r[i] == c[i] {
      if i < |ds| {
        assert c[i] == ds[i];
      } else {
        assert c[i] == prev[i];
      }
    }
  }

  /** Setting the same defects twice is setting them once. */
  lemma OverwriteIdempotent<T>(prev: seq<T>, ds: seq<T>)
    ensures Overwrite(Overwrite(prev, ds), ds) == Overwrite(prev, ds)
  {
    OverwriteClosedForm(prev, ds);
    OverwriteClosedForm(Overwrite(prev, ds), ds);
    OverwriteEntries(prev, ds);
    var once := Overwrite(prev, ds);
    assert once[Min(|ds|, |once|)..] == prev[Min(|ds|, |prev|)..];
  }

  /** On an empty store the result is exactly `ds`, and a longer list
      replaces the whole array. */
  lemma OverwriteLonger<T>(prev: seq<T>, ds: seq<T>)
    requires |prev| <= |ds|
    ensures Overwrite(prev, ds) == ds
  {
    OverwriteClosedForm(prev, ds);
    assert prev[|prev|..] == [];
  }
}
