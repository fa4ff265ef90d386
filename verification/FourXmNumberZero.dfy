/** The limits of the fragment table of FourXmCFrames. Number 0 marks unused slots, so frames of
    this number are collected rightly only as long as the first slot is left to them. */
module FourXmNumberZero {
  import opened FourXmCFrames

  // The beginnings of frames 1 to k.
  function Beginnings(k: nat): (h: seq<Fragment>)
    ensures |h| == k
  {
    if k == 0 then [] else Beginnings(k - 1) + [Fragment(k, 2, [1])]
  }

  function FilledIds(k: nat): seq<int> { seq(SLOTS, i => if i + k >= SLOTS then SLOTS - i else 0) }
  function FilledData(k: nat): seq<Data> { seq(SLOTS, i => if i + k >= SLOTS then [1] else []) }

  // Slots are given away from the last one on.
  lemma {:induction false} FillsFromTheEnd(k: nat)
    requires k <= SLOTS
    ensures TableAfter(Beginnings(k)) == Table(FilledIds(k), FilledData(k))
  {
    if k == 0 {
      assert FilledIds(0) == Empty().ids && FilledData(0) == Empty().data;
    } else {
      FillsFromTheEnd(k - 1);
      assert Beginnings(k)[..k - 1] == Beginnings(k - 1);
      OneMoreFilled(k);
    }
  }

  lemma OneMoreFilled(k: nat)
    requires 0 < k <= SLOTS
    ensures Filed(FilledIds(k - 1), FilledData(k - 1), Fragment(k, 2, [1])) == (Stored, FilledIds(k), FilledData(k))
    ensures SlotFor(FilledIds(k - 1), FilledData(k - 1), k) == SLOTS - k
  {
    var ids, data := FilledIds(k - 1), FilledData(k - 1);
    SearchFinds(ids, data, k, 0, -1);
    assert data[SLOTS - k] == [] && ids[SLOTS - k] == 0;
    assert SlotFor(ids, data, k) == SLOTS - k;
    assert data[SLOTS - k] + [1] == [1];
    assert ids[SLOTS - k := k] == FilledIds(k) && data[SLOTS - k := [1]] == FilledData(k);
  }

  // With 100 frames unfinished the first slot is taken. If one of the others is completed, number
  // 0 gets its slot; once the first slot is free again, number 0 is looked for there, and the two
  // halves of frame 0 never meet.
  const Frame50: Fragment := Fragment(50, 2, [2])
  const Zero1: Fragment := Fragment(0, 2, [7])
  const Frame100: Fragment := Fragment(100, 2, [2])
  const Zero2: Fragment := Fragment(0, 2, [8])

  function OneCompleted(): seq<Fragment> { Beginnings(100) + [Frame50] }
  function ZeroBegun(): seq<Fragment> { OneCompleted() + [Zero1] }
  function FirstSlotFreed(): seq<Fragment> { ZeroBegun() + [Frame100] }
  function Mistaken(): seq<Fragment> { FirstSlotFreed() + [Zero2] }

  lemma TableSteps()
    ensures var t := TableAfter(Beginnings(100));
            var (r1, t1) := TableStep(t, Frame50);
            var (r2, t2) := TableStep(t1, Zero1);
            var (r3, t3) := TableStep(t2, Frame100);
            var (r4, t4) := TableStep(t3, Zero2);
            && r1 == Complete([1, 2]) && r2 == Stored && r3 == Complete([1, 2]) && r4 == Stored
            && t1.Table? && SlotFor(t1.ids, t1.data, 0) == 50 && t1.ids[0] == 100 && t1.data[0] == [1]
            && t4.Table? && t4.ids[50] == 0 && t4.data[50] == [7]
  {
    FillsFromTheEnd(100);
    var ids0, data0 := FilledIds(100), FilledData(100);
    var ids1, data1 := ids0[50 := 0], data0[50 := []];
    var data2 := data1[50 := [7]];
    var ids3, data3 := ids1[0 := 0], data2[0 := []];
    hide *;
    assert [1] + [2] == [1, 2];
    FoundFirst(ids0, data0, Frame50, 50);
    FoundFirst(ids1, data1, Zero1, 50);
    FoundFirst(ids1, data2, Frame100, 0);
    FoundFirst(ids3, data3, Zero2, 0);
    FourSteps(ids0, data0);
  }

  // The steps of the table, once the slots are known.
  lemma FourSteps(ids: seq<int>, data: seq<Data>)
    requires |ids| == SLOTS == |data| && data[50] == [1] == data[0]
    requires SlotFor(ids, data, 50) == 50 && SlotFor(ids[50 := 0], data[50 := []], 0) == 50
    requires SlotFor(ids[50 := 0], data[50 := []][50 := [7]], 100) == 0
    requires SlotFor(ids[50 := 0][0 := 0], data[50 := []][50 := [7]][0 := []], 0) == 0
    requires ids[0] == 100
    ensures var (r1, t1) := TableStep(Table(ids, data), Frame50);
            var (r2, t2) := TableStep(t1, Zero1);
            var (r3, t3) := TableStep(t2, Frame100);
            var (r4, t4) := TableStep(t3, Zero2);
            && r1 == Complete([1, 2]) && r2 == Stored && r3 == Complete([1, 2]) && r4 == Stored
            && t1.Table? && SlotFor(t1.ids, t1.data, 0) == 50 && t1.ids[0] == 100 && t1.data[0] == [1]
            && t4.Table? && t4.ids[50] == 0 && t4.data[50] == [7]
  {
    hide SlotFor;
    assert [1] + [2] == [1, 2] && [] + [7] == [7] && [] + [8] == [8];
    var ids1, data1 := ids[50 := 0], data[50 := []];
    assert ids1[50 := 0] == ids1 && ids1[0 := 100] == ids1;
  }

  lemma TableAt(front: seq<Fragment>, f: Fragment)
    ensures TableAfter(front + [f]) == TableStep(TableAfter(front), f).1
    ensures After(front + [f]) == Take(After(front), f).1
    ensures NeverCrowded(front + [f]) <==>
            NeverCrowded(front) && (f.wholeSize >= 0 ==> |After(front).Keys + {f.id}| <= SLOTS)
  {
    assert (front + [f])[..|front|] == front;
  }

  lemma CompletedAt(front: seq<Fragment>, f: Fragment, id: int)
    ensures var r := Take(After(front), f).0;
            Completed(front + [f], id)
            == if r.Complete? && f.id == id then Completed(front, id) + [r.frame] else Completed(front, id)
    ensures var r := TableStep(TableAfter(front), f).0;
            TableCompleted(front + [f], id)
            == if r.Complete? && f.id == id then TableCompleted(front, id) + [r.frame] else TableCompleted(front, id)
  {
    assert (front + [f])[..|front|] == front;
  }

  lemma {:induction false} BeginningsHaveNumbers(k: nat)
    ensures NoZero(Beginnings(k))
  {
    if k > 0 { BeginningsHaveNumbers(k - 1); }
  }

  // Up to the completion of frame 50 the table stands for the map, in which 0 has no data yet.
  lemma FirstHalf()
    ensures var h, m := OneCompleted(), After(OneCompleted());
            && NoZero(h) && NeverCrowded(h) && TableStands(TableAfter(h), m)
            && Get(m, 100) == [1] && 0 !in m && |m.Keys + {0}| <= SLOTS
  {
    var h0, h := Beginnings(100), OneCompleted();
    BeginningsHaveNumbers(100);
    TableSteps();
    TableAt(h0, Frame50);
    hide Beginnings, TableStep, TableAfter, After, Take;
    assert NoZero(h);
    TableRefinesMap(h);
    var t := TableAfter(h);
    RoomIsLeft(t.ids, t.data, After(h), 0);
    assert Holds(t.ids, 0) && t.ids[0] == 100;
    assert 0 in After(h) ==> HasSlot(t.ids, 0);
  }

  // The map keeps the two halves of frame 0 together.
  lemma SecondHalf()
    ensures NeverCrowded(Mistaken())
    ensures Take(After(ZeroBegun()), Frame100).0 == Complete([1, 2])
    ensures Take(After(FirstSlotFreed()), Zero2).0 == Complete([7, 8])
    ensures Take(After(OneCompleted()), Zero1).0 == Stored
  {
    FirstHalf();
    var m1 := After(OneCompleted());
    TableAt(OneCompleted(), Zero1);
    TableAt(ZeroBegun(), Frame100);
    TableAt(FirstSlotFreed(), Zero2);
    hide TableStep, TableAfter, After, OneCompleted, Beginnings;
    assert [] + [7] == [7] && [7] + [8] == [7, 8] && [1] + [2] == [1, 2];
    var m2, m3 := m1[0 := [7]], m1[0 := [7]] - {100};
    assert Take(m1, Zero1).1 == m2 && Take(m2, Frame100).1 == m3;
    assert m2.Keys == m1.Keys + {0} && m2.Keys + {100} == m2.Keys;
    SubsetSize(m3.Keys + {0}, m2.Keys);
  }

  // A history that never has more than 100 frames unfinished, and in which the table loses frame 0.
  lemma NumberZeroIsMistaken()
    ensures NeverCrowded(Mistaken()) && Within(Mistaken(), SLOTS)
    ensures Completed(Mistaken(), 0) == [[7, 8]] && TableCompleted(Mistaken(), 0) == []
    ensures Take(After(FirstSlotFreed()), Zero2).0 == Complete([7, 8])
    ensures TableStep(TableAfter(FirstSlotFreed()), Zero2).0 == Stored
    ensures TableAfter(Mistaken()).Table? && !TableStands(TableAfter(Mistaken()), After(Mistaken()))
  {
    TableSteps();
    SecondHalf();
    NothingUnderZero();
    TableAt(Beginnings(100), Frame50);
    TableAt(OneCompleted(), Zero1);
    TableAt(ZeroBegun(), Frame100);
    TableAt(FirstSlotFreed(), Zero2);
    CompletedAt(OneCompleted(), Zero1, 0);
    CompletedAt(ZeroBegun(), Frame100, 0);
    CompletedAt(FirstSlotFreed(), Zero2, 0);
    CrowdIsWithin(Mistaken());
    hide TableStep, TableAfter, After, Take, Beginnings, Completed, TableCompleted, NeverCrowded, Within;
    assert [] + [[7, 8]] == [[7, 8]];
  }

  lemma {:induction false} OtherNumbersOnly(h: seq<Fragment>, id: int)
    requires forall i | 0 <= i < |h| :: h[i].id != id
    ensures Completed(h, id) == [] && TableCompleted(h, id) == []
    decreases |h|
  {
    if h != [] { OtherNumbersOnly(h[..|h| - 1], id); }
  }

  lemma NothingUnderZero()
    ensures Completed(OneCompleted(), 0) == [] && TableCompleted(OneCompleted(), 0) == []
  {
    BeginningsHaveNumbers(100);
    hide Beginnings;
    OtherNumbersOnly(OneCompleted(), 0);
  }

  lemma {:induction false} CrowdIsWithin(h: seq<Fragment>)
    requires NeverCrowded(h)
    ensures Within(h, SLOTS)
    decreases |h|
  {
    if h != [] {
      var front, f := h[..|h| - 1], h[|h| - 1];
      CrowdIsWithin(front);
      hide After;
      SubsetSize((After(front).Keys + {f.id}) - {0}, After(front).Keys + {f.id});
    }
  }

  lemma {:induction false} WiderBound(h: seq<Fragment>, b: nat, b': nat)
    requires Within(h, b) && b <= b'
    ensures Within(h, b')
    decreases |h|
  {
    if h != [] { WiderBound(h[..|h| - 1], b, b'); }
  }

  // The table ends up standing for the map, and has completed the same frames.
  ghost predicate Refines(h: seq<Fragment>) {
    TableStands(TableAfter(h), After(h)) && forall id :: TableCompleted(h, id) == Completed(h, id)
  }

  // The exact bound: if at most b other frames are unfinished at any time, the table is right about
  // all histories, with number 0 or without, exactly for b up to 99.
  lemma ExactBound(b: nat)
    ensures (forall h | Within(h, b) && NeverCrowded(h) :: Refines(h)) <==> b < SLOTS
  {
    if b < SLOTS {
      forall h | Within(h, b) && NeverCrowded(h) ensures Refines(h) { BoundSuffices(h, b); }
    } else {
      NumberZeroIsMistaken();
      WiderBound(Mistaken(), SLOTS, b);
      assert !Refines(Mistaken());
    }
  }

  lemma BoundSuffices(h: seq<Fragment>, b: nat)
    requires Within(h, b) && NeverCrowded(h) && b < SLOTS
    ensures Refines(h)
  {
    WiderBound(h, b, SLOTS - 1);
    TableRefinesMap(h);
    forall id ensures TableCompleted(h, id) == Completed(h, id) { TableCompletes(h, id); }
  }

  // The first slot is unused, or no other one is left.
  ghost predicate FirstSlotIsZeros(ids: seq<int>, data: seq<Data>)
    requires |ids| == SLOTS == |data|
  {
    ids[0] == 0 || forall k | 0 < k < SLOTS :: data[k] != []
  }

  // Where a fragment of number 0 goes: to the first slot under this condition only, and else to
  // one without data.
  lemma SlotForZero(ids: seq<int>, data: seq<Data>, m: map<int, Data>)
    requires Stands(ids, data, m) && SlotFor(ids, data, 0) >= 0
    ensures var slot := SlotFor(ids, data, 0);
            && slot < SLOTS && (slot == 0 <==> FirstSlotIsZeros(ids, data))
            && (slot > 0 ==> 0 !in m && data[slot] == [])
            && (ids[slot] == 0 || (data[slot] == [] && forall k | 0 <= k < SLOTS :: ids[k] != 0))
  {
    SearchFinds(ids, data, 0, 0, -1);
    var slot := SlotFor(ids, data, 0);
    hide SlotFor;
    assert 0 in m ==> HasSlot(ids, 0);
  }

  // A single fragment of number 0 has the right outcome in any case; it leaves the table wrong
  // exactly if it has data to be kept while the first slot is taken and another one is left.
  lemma ZeroStepExactly(ids: seq<int>, data: seq<Data>, m: map<int, Data>, f: Fragment)
    requires Stands(ids, data, m) && f.id == 0 && SlotFor(ids, data, 0) >= 0
    ensures var (r, ids', data') := Filed(ids, data, f);
            && r == Take(m, f).0
            && (Stands(ids', data', Take(m, f).1) <==>
                FirstSlotIsZeros(ids, data) || !r.Stored? || f.data == [])
  {
    SlotForZero(ids, data, m);
    var slot := SlotFor(ids, data, 0);
    if slot == 0 {
      hide Stands, SlotFor;
      FoundSlotKeeps(ids, data, m, f, 0);
    } else {
      hide SlotFor;
      ElsewhereKeeps(ids, data, m, slot);
      assert 0 !in m && m - {0} == m;
      assert data[slot := []] == data;
    }
  }

  // An unused slot may change its number to 0.
  lemma ElsewhereKeeps(ids: seq<int>, data: seq<Data>, m: map<int, Data>, slot: nat)
    requires Stands(ids, data, m) && 0 < slot < SLOTS && data[slot] == []
    ensures Stands(ids[slot := 0], data, m)
  {
    var named := ids[slot := 0];
    forall x | x in m ensures HasSlot(named, x) {
      assert HasSlot(ids, x);
      var i: nat :| i < |ids| && Holds(ids, i) && ids[i] == x;
      assert Get(m, ids[i]) == data[i];
      assert i != slot && Holds(named, i) && named[i] == x;
    }
  }

  // The first slot of a number is the one found.
  lemma FoundFirst(ids: seq<int>, data: seq<Data>, f: Fragment, slot: nat)
    requires |ids| == SLOTS == |data| && slot < SLOTS && ids[slot] == f.id && forall i | 0 <= i < slot :: ids[i] != f.id
    requires f.wholeSize == 2 && |f.data| == 1 && |data[slot]| <= 1
    ensures SlotFor(ids, data, f.id) == slot
    ensures Filed(ids, data, f) == if data[slot] == [] then (Stored, ids, data[slot := f.data])
                                   else (Complete(data[slot] + f.data), ids[slot := 0], data[slot := []])
  {
    SearchFinds(ids, data, f.id, 0, -1);
    assert ids[slot := f.id] == ids;
    assert [] + f.data == f.data;
  }
}
