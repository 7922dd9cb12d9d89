/**
 The rotating hero background (`heroBackgrounds` in js/main.js).

 `init` creates one `.hero-background` element per image path and inserts
 each one before the hero's first child; `startTransition` takes the
 elements in document order and, on every timer tick, moves the "active"
 class from the element at `currentIndex` to the next one, cyclically.

 Because every element is inserted in front of the previous ones, document
 order is the reverse of the list order, and the element that `init` marks
 active (list index 0) sits at the LAST document position, not at
 `currentIndex` 0. From tick 1 to tick n - 2 two elements are active (the
 current one and the last one); at tick n - 1 the current one IS the last
 one, and from then on exactly one element is active. `InitInOrder` is
 the evidently intended set-up (document order equal to list order), under
 which exactly one element is active at every tick.
 */
module HeroBackgrounds {

  import opened Flags

  /** The image paths of the hero section, in list order. */
  const Backgrounds: seq<string> := [
    "./images/frieren-bg.jpg",
    "./images/frieren-bg01.jpg",
    "./images/frieren-bg02.jpg",
    "./images/frieren-bg03.jpg",
    "./images/frieren-bg04.jpg",
    "./images/frieren-bg05.jpg",
    "./images/frieren-bg06.jpg",
    "./images/frieren-bg07.jpg",
    "./images/frieren-bg08.jpg",
    "./images/frieren-bg09.jpg",
    "./images/frieren-bg10.jpg"
  ]

  /** The "active" flag of every background element, in document order, and `currentIndex`. */
  datatype Rotation = Rotation(active: seq<bool>, index: nat)

  predicate Running(r: Rotation)
  {
    0 < |r.active| && r.index < |r.active|
  }

  /** One timer tick: clear the current slot, advance modulo the count, mark the new slot. */
  function Tick(r: Rotation): (t: Rotation)
    requires Running(r)
    ensures Running(t) && |t.active| == |r.active|
    ensures t.index == if r.index + 1 < |r.active| then r.index + 1 else 0
  {
    var next := (r.index + 1) % |r.active|;
    Rotation(r.active[r.index := false][next := true], next)
  }

  /** `k` ticks in a row. */
  function TickN(r: Rotation, k: nat): (t: Rotation)
    requires Running(r)
    ensures Running(t) && |t.active| == |r.active|
    decreases k
  {
    if k == 0 then r else Tick(TickN(r, k - 1))
  }

  /** The state `init` leaves: the element made for list index 0 is at the last document position. */
  function AsWrittenStart(n: nat): Rotation
  {
    Rotation(seq(n, k => k == n - 1), 0)
  }

  /** The intended state: the first element in document order is active and current. */
  function InOrderStart(n: nat): Rotation
  {
    Rotation(seq(n, k => k == 0), 0)
  }

  /** A tick moves the marker: it leaves the old slot and lands on the new one, nothing else changes. */
  lemma TickMovesMarker(r: Rotation)
    requires Running(r)
    ensures Marked(Tick(r).active) == Marked(r.active) - {r.index} + {Tick(r).index}
  {
  }

  /** Exactly one active element, sitting at `currentIndex`, stays so after a tick. */
  lemma OneActiveKept(r: Rotation)
    requires Running(r) && Marked(r.active) == {r.index}
    ensures Marked(Tick(r).active) == {Tick(r).index}
  {
    TickMovesMarker(r);
  }

  /** Within one cycle the index advances by one per tick and wraps past the last element. */
  lemma {:induction false} TicksAdvanceIndex(r: Rotation, k: nat)
    requires Running(r) && k <= |r.active|
    ensures TickN(r, k).index == if r.index + k < |r.active| then r.index + k else r.index + k - |r.active|
  {
    if k > 0 {
      TicksAdvanceIndex(r, k - 1);
    }
  }

  /** After as many ticks as there are elements the index is back where it started. */
  lemma FullCycleReturns(r: Rotation)
    requires Running(r)
    ensures TickN(r, |r.active|).index == r.index
  {
    TicksAdvanceIndex(r, |r.active|);
  }

  /** Corrected set-up: at every tick exactly one element is active, the one at `currentIndex`. */
  lemma {:induction false} InOrderAlwaysOneActive(n: nat, k: nat)
    requires n > 0
    ensures Marked(TickN(InOrderStart(n), k).active) == {TickN(InOrderStart(n), k).index}
  {
    var s := InOrderStart(n);
    if k == 0 {
      forall j: nat ensures j in Marked(s.active) <==> j == 0 {
        if j < n { assert j in Marked(s.active) <==> s.active[j]; }
      }
    } else {
      InOrderAlwaysOneActive(n, k - 1);
      OneActiveKept(TickN(s, k - 1));
    }
  }

  /**
   As written: after `k` ticks of the first cycle, slots `k` and `n - 1` are
   active (two slots for `k < n - 1`, the single slot `n - 1` at `k == n - 1`).
   */
  lemma {:induction false} AsWrittenFirstCycle(n: nat, k: nat)
    requires 0 < k < n
    ensures Marked(TickN(AsWrittenStart(n), k).active) == {k, n - 1}
    ensures TickN(AsWrittenStart(n), k).index == k
  {
    var s := AsWrittenStart(n);
    var before := TickN(s, k - 1);
    if k == 1 {
      forall j: nat ensures j in Marked(s.active) <==> j == n - 1 {
        if j < n { assert j in Marked(s.active) <==> s.active[j]; }
      }
      TickMovesMarker(s);
    } else {
      AsWrittenFirstCycle(n, k - 1);
      TickMovesMarker(before);
    }
    TicksAdvanceIndex(s, k);
  }

  /** As written: at tick `n - 1` the marker reaches the stray slot, and one element is active. */
  lemma AsWrittenOneActiveAtLastSlot(n: nat)
    requires n > 1
    ensures Marked(TickN(AsWrittenStart(n), n - 1).active) == {n - 1}
    ensures TickN(AsWrittenStart(n), n - 1).index == n - 1
  {
    AsWrittenFirstCycle(n, n - 1);
  }

  /** As written: one full cycle heals the rotation to a single active element at index 0. */
  lemma AsWrittenHealsAfterOneCycle(n: nat)
    requires n > 1
    ensures Marked(TickN(AsWrittenStart(n), n).active) == {0}
    ensures TickN(AsWrittenStart(n), n).index == 0
  {
    AsWrittenFirstCycle(n, n - 1);
    TickMovesMarker(TickN(AsWrittenStart(n), n - 1));
  }

  /** The page's own eleven backgrounds: one second tick in, two elements are active. */
  lemma AsWrittenTwoActive()
    ensures |Backgrounds| == 11
    ensures Marked(TickN(AsWrittenStart(|Backgrounds|), 1).active) == {1, 10}
  {
  }

  /** The rotator: the background elements' "active" flags, in document order, and `currentIndex`. */
  class HeroRotator {
    /** The background image of each element, in document order. */
    const slides: seq<string>
    /** The "active" class of each element of the `.hero-background` list. */
    const active: array<bool>
    var currentIndex: nat

    ghost predicate Valid()
      reads this
    {
      active.Length == |slides| && (active.Length > 0 ==> currentIndex < active.Length)
    }

    function State(): Rotation
      reads this, active
    {
      Rotation(active[..], currentIndex)
    }

    /** `init` as written: every new element goes in front of the hero's first child. */
    constructor Init(backgrounds: seq<string>)
      ensures Valid() && fresh(active)
      ensures |slides| == |backgrounds|
      ensures forall k :: 0 <= k < |slides| ==> slides[k] == backgrounds[|backgrounds| - 1 - k]
      ensures State() == AsWrittenStart(|backgrounds|)
    {
      var docs: seq<string> := [];
      var marks: seq<bool> := [];
      for i := 0 to |backgrounds|
        invariant |docs| == |marks| == i
        invariant forall k :: 0 <= k < i ==> docs[k] == backgrounds[i - 1 - k]
        invariant forall k :: 0 <= k < i ==> marks[k] == (k == i - 1)
      {
        docs := [backgrounds[i]] + docs;
        marks := [i == 0] + marks;
      }
      slides := docs;
      active := new bool[|marks|](k requires 0 <= k < |marks| => marks[k]);
      currentIndex := 0;
    }

    /** The intended set-up: elements appended, so document order is list order. */
    constructor InitInOrder(backgrounds: seq<string>)
      ensures Valid() && fresh(active)
      ensures slides == backgrounds
      ensures State() == InOrderStart(|backgrounds|)
    {
      var docs: seq<string> := [];
      var marks: seq<bool> := [];
      for i := 0 to |backgrounds|
        invariant |docs| == |marks| == i
        invariant docs == backgrounds[..i]
        invariant forall k :: 0 <= k < i ==> marks[k] == (k == 0)
      {
        docs := docs + [backgrounds[i]];
        marks := marks + [i == 0];
      }
      slides := docs;
      active := new bool[|marks|](k requires 0 <= k < |marks| => marks[k]);
      currentIndex := 0;
    }

    /** The body of the interval callback. */
    method OnInterval()
      requires Valid() && active.Length > 0
      modifies this, active
      ensures Valid()
      ensures State() == Tick(old(State()))
    {
      active[currentIndex] := false;
      currentIndex := (currentIndex + 1) % active.Length;
      active[currentIndex] := true;
    }
  }
}
