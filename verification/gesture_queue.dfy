/**
  The row of gesture holders that shows the player which gestures to draw
  next. Holder 0 is the gesture the player must draw now; each accepted
  gesture drops it, shifts the others forward and fills the last holder with
  a newly created gesture object.

  Gesture objects are identified by their index in creation order, so
  "instantiate" appends to `objects` and a holder refers to an object by that
  index. A destroyed object compares equal to null, so destroying the front
  object is modelled as emptying holder 0; destroyed objects are otherwise
  not tracked, which is exact on a ready row.
 */
module GestureQueue {

  /** The local scale of a gesture object: the x/y factor the shift set, or
      the scale the object was instantiated with, which the queue never chose. */
  datatype Scale = Scaled(factor: real) | PrefabScale

  /** Scale given to a gesture moved into the front holder. */
  const FrontFactor: real := 1.0
  /** Scale given to a gesture moved into any other holder. */
  const BackFactor: real := 0.7

  /** The scale the shift gives a gesture it moves into holder i. */
  function MovedScale(i: nat): Scale {
    if i == 0 then Scaled(FrontFactor) else Scaled(BackFactor)
  }

  /** The scale a fully shifted row shows in holder j of n. */
  function DisplayScale(j: nat, n: nat): Scale {
    if j + 1 == n then PrefabScale else MovedScale(j)
  }

  /** An on-screen gesture; `name` is the gesture the player is asked to draw. */
  datatype GestureObject = GestureObject(name: string, scale: Scale)

  /** A holder's gesture field: empty, or the creation index of an object. */
  datatype Slot = Empty | Holding(obj: nat)

  /** The holders, front first, and every gesture object created so far. */
  datatype Queue = Queue(slots: seq<Slot>, objects: seq<GestureObject>)

  /** Every holder refers to an object that has been created. */
  predicate WellFormed(q: Queue) {
    forall j :: 0 <= j < |q.slots| && q.slots[j].Holding? ==> q.slots[j].obj < |q.objects|
  }

  /** The last k holders show the most recently created objects, in creation
      order, each at the scale a shift gives its holder. */
  predicate SuffixReady(q: Queue, k: nat) {
    && k <= |q.slots|
    && k <= |q.objects|
    && (forall j :: |q.slots| - k <= j < |q.slots| ==>
          q.slots[j] == Holding(|q.objects| - |q.slots| + j))
    && (forall j :: |q.slots| - k <= j < |q.slots| ==>
          q.objects[|q.objects| - |q.slots| + j].scale == DisplayScale(j, |q.slots|))
  }

  /** The state the queue is in once the row has been filled: at least one
      holder, and every holder showing one of the newest objects in order. */
  predicate Ready(q: Queue) {
    |q.slots| >= 1 && SuffixReady(q, |q.slots|)
  }

  /** The name of the gesture the player must draw now. */
  function FrontName(q: Queue): string
    requires Ready(q)
  {
    q.objects[q.slots[0].obj].name
  }

  /** The scale object t has after the first n steps of the shift loop over
      the holders s: step k moves the object in holder k + 1 into holder k. */
  function ScaleAfter(s: seq<Slot>, t: nat, n: nat, prior: Scale): Scale
    requires n < |s|
  {
    if n == 0 then prior
    else if s[n] == Holding(t) then MovedScale(n - 1)
    else ScaleAfter(s, t, n - 1, prior)
  }

  /** The object t was last moved into holder j and is not seen again by the
      steps that follow, so it keeps the scale of holder j. */
  lemma {:induction false} ScaleAfterLastMove(s: seq<Slot>, t: nat, n: nat, prior: Scale, j: nat)
    requires j < n < |s|
    requires s[j + 1] == Holding(t)
    requires forall k :: j + 1 < k <= n ==> s[k] != Holding(t)
    ensures ScaleAfter(s, t, n, prior) == MovedScale(j)
  {
    if n != j + 1 {
      ScaleAfterLastMove(s, t, n - 1, prior, j);
    }
  }

  /** What holder i (not the last) holds after the shift: its successor's
      object when there is one, otherwise its own, except that holder 0 has
      lost its destroyed object. */
  function ShiftedSlot(s: seq<Slot>, i: nat): Slot
    requires i + 1 < |s|
  {
    if s[i + 1].Holding? then s[i + 1]
    else if i == 0 then Empty
    else s[i]
  }

  /** One advance of the row, stated holder by holder. Holder 0 loses its
      object; holder i < n - 1 takes the object of holder i + 1 when there is
      one and otherwise keeps its own; the last holder gets a newly created
      object named `name`, at its prefab scale. Every moved object gets the
      scale of the holder it was last moved into. */
  function Advance(q: Queue, name: string): (r: Queue)
    requires |q.slots| >= 1
    ensures |r.slots| == |q.slots|
    ensures |r.objects| == |q.objects| + 1
    ensures r.slots[|q.slots| - 1] == Holding(|q.objects|)
    ensures r.objects[|q.objects|] == GestureObject(name, PrefabScale)
    ensures forall t :: 0 <= t < |q.objects| ==> r.objects[t].name == q.objects[t].name
    ensures WellFormed(q) ==> WellFormed(r)
  {
    var n := |q.slots|;
    Queue(
      seq(n, i requires 0 <= i < n =>
        if i == n - 1 then Holding(|q.objects|) else ShiftedSlot(q.slots, i)),
      seq(|q.objects|, t requires 0 <= t < |q.objects| =>
        q.objects[t].(scale := ScaleAfter(q.slots, t, n - 1, q.objects[t].scale)))
      + [GestureObject(name, PrefabScale)])
  }

  /** An advance of a row whose last k < n holders are ready leaves the last
      k + 1 holders ready: the ready objects move one holder forward and the
      new object takes the tail. */
  lemma AdvanceExtendsSuffix(q: Queue, name: string, k: nat)
    requires |q.slots| >= 1
    requires k < |q.slots|
    requires SuffixReady(q, k)
    ensures SuffixReady(Advance(q, name), k + 1)
  {
    var r := Advance(q, name);
    var n := |q.slots|;
    var m := |q.objects|;
    forall j | n - (k + 1) <= j < n
      ensures r.slots[j] == Holding(m + 1 - n + j)
      ensures r.objects[m + 1 - n + j].scale == DisplayScale(j, n)
    {
      if j < n - 1 {
        assert q.slots[j + 1] == Holding(m - n + j + 1);
        forall i | j + 1 < i <= n - 1
          ensures q.slots[i] != Holding(m - n + j + 1)
        {
          assert q.slots[i] == Holding(m - n + i);
        }
        ScaleAfterLastMove(q.slots, m - n + j + 1, n - 1, q.objects[m - n + j + 1].scale, j);
      }
    }
  }

  /** On a ready row an advance is a clean shift: the front object is evicted,
      every other object moves one holder forward and the new object is last;
      the row stays ready. */
  lemma AdvanceReady(q: Queue, name: string)
    requires Ready(q)
    ensures Ready(Advance(q, name))
    ensures Advance(q, name).slots == q.slots[1..] + [Holding(|q.objects|)]
    ensures q.slots[0] !in Advance(q, name).slots
  {
    AdvanceExtendsSuffix(q, name, |q.slots| - 1);
    var r := Advance(q, name);
    assert r.slots == q.slots[1..] + [Holding(|q.objects|)];
    var f := |q.objects| - |q.slots|;
    assert q.slots[0] == Holding(f);
    forall j | 0 <= j < |r.slots|
      ensures r.slots[j] != Holding(f)
    {
    }
  }

  /** The shift as the handler performs it: destroy the front object, walk the
      holders front to back moving each successor's object down, then
      instantiate a new object into the last holder. */
  method CreateNewGesture(q: Queue, name: string) returns (r: Queue)
    requires |q.slots| >= 1
    requires WellFormed(q)
    ensures r == Advance(q, name)
  {
    var n := |q.slots|;
    var holders := q.slots;
    var objects := q.objects;
    holders := holders[0 := Empty];
    var i := 0;
    while i < n - 1
      invariant 0 <= i <= n - 1
      invariant |holders| == n && |objects| == |q.objects|
      invariant forall k :: 0 <= k < i ==> holders[k] == ShiftedSlot(q.slots, k)
      invariant i == 0 ==> holders[0] == Empty
      invariant forall k :: i <= k < n && k != 0 ==> holders[k] == q.slots[k]
      invariant forall t :: 0 <= t < |objects| ==>
        objects[t] == q.objects[t].(scale := ScaleAfter(q.slots, t, i, q.objects[t].scale))
    {
      if holders[i + 1].Holding? {
        var t := holders[i + 1].obj;
        holders := holders[i := holders[i + 1]];
        objects := objects[t := objects[t].(scale := MovedScale(i))];
      }
      i := i + 1;
    }
    holders := holders[n - 1 := Holding(|objects|)];
    objects := objects + [GestureObject(name, PrefabScale)];
    r := Queue(holders, objects);
    ghost var expected := Advance(q, name);
    assert r.slots == expected.slots;
    assert r.objects == expected.objects by {
      assert forall t :: 0 <= t < |r.objects| ==> r.objects[t] == expected.objects[t];
    }
  }

  /** Refills the whole row: one advance per holder, the j-th creating an
      object named names[j]. Whatever the row held before, afterwards holder j
      shows the j-th object created here and the row is ready. */
  method ResetGestures(q: Queue, names: seq<string>) returns (r: Queue)
    requires |names| == |q.slots|
    requires WellFormed(q)
    ensures |r.slots| == |q.slots|
    ensures |r.objects| == |q.objects| + |names|
    ensures forall j :: 0 <= j < |q.slots| ==> r.slots[j] == Holding(|q.objects| + j)
    ensures forall j :: 0 <= j < |names| ==> r.objects[|q.objects| + j].name == names[j]
    ensures |q.slots| >= 1 ==> Ready(r)
  {
    r := q;
    var i := 0;
    while i < |q.slots|
      invariant 0 <= i <= |q.slots|
      invariant |r.slots| == |q.slots|
      invariant |r.objects| == |q.objects| + i
      invariant WellFormed(r)
      invariant SuffixReady(r, i)
      invariant forall j :: 0 <= j < i ==> r.objects[|q.objects| + j].name == names[j]
    {
      AdvanceExtendsSuffix(r, names[i], i);
      r := CreateNewGesture(r, names[i]);
      i := i + 1;
    }
  }
}
