/** The image-formset slot allocator of the defect form: a counter of the
    image forms shown and an ascending queue of the positions of hidden,
    empty forms that the "new image" button reveals one at a time. */
module DefectForm {
  import opened Common

  /** The allocator's state as a value: the counter, the number of forms
      the server sent, and the queue of free positions. */
  datatype Slots = Slots(counter: int, max: int, free: seq<int>)

  /** The counter the initialiser computes from `total` forms of which
      `extra` are empty: the filled forms are shown, and at least one form
      is shown when none is filled. */
  function InitialCounter(total: int, extra: int): int
  {
    if total - extra == 0 then 1 else total - extra
  }

  /** The state after the initialiser has run on a fresh page. */
  function Initial(total: int, extra: int): Slots
  {
    var c := InitialCounter(total, extra);
    Slots(c, total, Range(c, total))
  }

  /** One press of the "new image" button: nothing when every form is
      shown; otherwise one more form is counted and the head of the queue
      (if any) is taken and revealed. The emptiness guard before the step
      tests the array object, which is always truthy, so only the counter
      check can stop the step. */
  function Click(s: Slots): (Slots, Option<int>)
  {
    if s.counter == s.max then (s, None)
    else if s.free == [] then (Slots(s.counter + 1, s.max, []), None)
    else (Slots(s.counter + 1, s.max, s.free[1..]), Some(s.free[0]))
  }

  /** The intended shape of the state: the queue holds exactly the
      positions from the counter up to the last form, in ascending order. */
  predicate Valid(s: Slots)
  {
    s.counter <= s.max && s.free == Range(s.counter, s.max)
  }

  predicate Ascending(xs: seq<int>)
  {
    forall i, j :: 0 <= i < j < |xs| ==> xs[i] < xs[j]
  }

  /** The state after `n` presses. */
  function Clicks(s: Slots, n: nat): Slots
  {
    if n == 0 then s else Click(Clicks(s, n - 1)).0
  }

  /** The positions revealed by `n` presses, in order. */
  function Shown(s: Slots, n: nat): seq<int>
  {
    if n == 0 then []
    else
      var r := Click(Clicks(s, n - 1)).1;
      Shown(s, n - 1) + (if r.Some? then [r.value] else [])
  }

  lemma RangeSnoc(lo: int, hi: int)
    requires lo <= hi
    ensures Range(lo, hi + 1) == Range(lo, hi) + [hi]
  {
    assert forall i :: 0 <= i < |Range(lo, hi + 1)| ==> Range(lo, hi + 1)[i] == (Range(lo, hi) + [hi])[i];
  }

  /** The module state of the form script. */
  class ImageFormset {
    var formsetCounter: int
    var maxFormsetNumber: int
    var extraImagesNumber: int
    var listOfEmpty: seq<int>

    function State(): Slots
      reads this
    {
      Slots(formsetCounter, maxFormsetNumber, listOfEmpty)
    }

    /** The values the module starts with. */
    constructor ()
      ensures formsetCounter == 0 && maxFormsetNumber == 0 && extraImagesNumber == 0
      ensures listOfEmpty == []
    {
      formsetCounter := 0;
      maxFormsetNumber := 0;
      extraImagesNumber := 0;
      listOfEmpty := [];
    }

    /** The page initialiser, given the two numbers it reads from the page. */
    method Initialise(total: int, extra: int)
      modifies this
      ensures maxFormsetNumber == total && extraImagesNumber == extra
      ensures formsetCounter == InitialCounter(total, extra)
      ensures listOfEmpty == old(listOfEmpty) + Range(formsetCounter, total)
      ensures old(listOfEmpty) == [] ==> State() == Initial(total, extra)
    {
      maxFormsetNumber := total;
      extraImagesNumber := extra;
      formsetCounter := maxFormsetNumber - extraImagesNumber;
      if formsetCounter == 0 {
        formsetCounter := formsetCounter + 1;
      }
      var i := formsetCounter;
      while i < maxFormsetNumber
        invariant maxFormsetNumber == total && extraImagesNumber == extra
        invariant formsetCounter == InitialCounter(total, extra)
        invariant formsetCounter <= i
        invariant i <= maxFormsetNumber || i == formsetCounter
        invariant listOfEmpty == old(listOfEmpty) + Range(formsetCounter, i)
        decreases maxFormsetNumber - i
      {
        RangeSnoc(formsetCounter, i);
        listOfEmpty := listOfEmpty + [i];
        i := i + 1;
      }
    }

    /** The click handler; `shown` is the position of the form it reveals. */
    method NewImageClick() returns (shown: Option<int>)
      modifies this
      ensures (State(), shown) == Click(old(State()))
      ensures extraImagesNumber == old(extraImagesNumber)
    {
      if formsetCounter == maxFormsetNumber {
        return None;
      }
      formsetCounter := formsetCounter + 1;
      if listOfEmpty == [] {
        shown := None;
      } else {
        shown := Some(listOfEmpty[0]);
        listOfEmpty := listOfEmpty[1..];
      }
    }
  }
}

/** What the slot allocator guarantees. */
module DefectFormProperties {
  import opened Common
  import opened DefectForm

  /** A fresh page: the counter is `total - extra`, or 1 when no form is
      filled, and the queue lists the positions after it in ascending
      order, so the counter and the queue together account for every form. */
  lemma InitialState(total: int, extra: int)
    requires 0 <= extra <= total && 1 <= total
    ensures var s := Initial(total, extra);
      Valid(s) && s.counter >= 1 && s.counter + |s.free| == total &&
      (total - extra >= 1 ==> s.counter == total - extra) &&
      (forall p :: p in s.free <==> s.counter <= p < total) && Ascending(s.free)
  {
    var s := Initial(total, extra);
    forall p | s.counter <= p < total ensures p in s.free {
      assert s.free[p - s.counter] == p;
    }
  }

  /** A valid state stays valid under a press, and the counter and queue
      still account for every form. */
  lemma ClickPreservesValid(s: Slots)
    requires Valid(s)
    ensures Valid(Click(s).0) && Click(s).0.max == s.max
    ensures Click(s).0.counter + |Click(s).0.free| == s.max
  {
    if s.counter < s.max {
      assert s.free[1..] == Range(s.counter + 1, s.max);
    }
  }

  /** With every form shown, a press changes nothing. */
  lemma ClickAtMaxChangesNothing(s: Slots)
    requires s.counter == s.max
    ensures Click(s) == (s, None)
  {
  }

  /** Otherwise a press counts one more form and reveals the smallest free
      position, which leaves the queue. */
  lemma ClickRevealsSmallest(s: Slots)
    requires Valid(s) && s.counter < s.max
    ensures Click(s).1 == Some(s.counter)
    ensures Click(s).0.counter == s.counter + 1
    ensures Click(s).1.value !in Click(s).0.free
    ensures forall p :: p in Click(s).0.free ==> Click(s).1.value < p
  {
    ClickPreservesValid(s);
  }

  /** The emptiness guard never stops a press: with the counter below the
      limit and an empty queue, the counter still goes up. */
  lemma EmptyQueueStillCounts(c: int, max: int)
    requires c != max
    ensures Click(Slots(c, max, [])) == (Slots(c + 1, max, []), None)
  {
  }

  /** After `n` presses from a valid state the counter is capped at the
      number of forms: it never exceeds it. */
  lemma {:induction false} ClicksCounter(s: Slots, n: nat)
    requires Valid(s)
    ensures Valid(Clicks(s, n)) && Clicks(s, n).max == s.max
    ensures Clicks(s, n).counter == Min(s.counter + n, s.max)
  {
    if n > 0 {
      ClicksCounter(s, n - 1);
      ClickPreservesValid(Clicks(s, n - 1));
    }
  }

  /** What one press from a valid state reveals. */
  lemma ClickShows(t: Slots)
    requires Valid(t)
    ensures Click(t).1 == if t.counter < t.max then Some(t.counter) else None
  {
    if t.counter < t.max {
      ClickRevealsSmallest(t);
    }
  }

  /** The presses reveal the free positions one by one in ascending order,
      each at most once, stopping when none is left. */
  lemma {:induction false} ShownPositions(s: Slots, n: nat)
    requires Valid(s)
    ensures Shown(s, n) == Range(s.counter, Min(s.counter + n, s.max))
  {
    if n > 0 {
      ShownPositions(s, n - 1);
      ClicksCounter(s, n - 1);
      var t := Clicks(s, n - 1);
      ClickShows(t);
      var c := t.counter;
      var r := Click(t).1;
      assert Shown(s, n) == Shown(s, n - 1) + (if r.Some? then [r.value] else []);
      assert Shown(s, n - 1) == Range(s.counter, c);
      if c < t.max {
        assert r == Some(c);
        RangeSnoc(s.counter, c);
        assert Min(s.counter + n, s.max) == c + 1;
      } else {
        assert r == None;
        assert Shown(s, n) == Shown(s, n - 1) + [];
        assert Min(s.counter + n, s.max) == c;
      }
    }
  }

  /** A page whose formset is empty starts with the counter above the
      number of forms, and then every press raises it further. */
  lemma {:induction false} NoFormsCounterRuns(n: nat)
    ensures Clicks(Initial(0, 0), n) == Slots(1 + n, 0, [])
  {
    if n > 0 {
      NoFormsCounterRuns(n - 1);
    }
  }
}
