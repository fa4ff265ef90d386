/** Fragmented frames of the 4XM codec, the cfrm branch of decode_frame in
    FFmpeg/libavcodec/4xm.c: 100 slots that collect the fragments of interleaved frames. */
module FourXmCFrames {

  const SLOTS: nat := 100
  const UINT_MAX: int := 0xFFFF_FFFF
  const PADDING: int := 64

  type Data = seq<int>
  datatype Fragment = Fragment(id: int, wholeSize: int, data: Data)
  datatype Outcome = Rejected | Stored | Complete(frame: Data)

  // ------------------------------------------------------------------ what the table stands for

  function Get(m: map<int, Data>, id: int): Data { if id in m then m[id] else [] }

  // The unfinished frames with some data, by frame number.
  function Take(m: map<int, Data>, f: Fragment): (Outcome, map<int, Data>) {
    var whole := Get(m, f.id) + f.data;
    if f.wholeSize < 0 || |f.data| > UINT_MAX - |Get(m, f.id)| - PADDING then (Rejected, m)
    else if |whole| >= f.wholeSize then (Complete(whole), m - {f.id})
    else (Stored, if whole == [] then m else m[f.id := whole])
  }

  // ------------------------------------------------------------------ the table in place

  // The slot a fragment goes to: the first one with its number, else the last one without data,
  // else -1, where the source would write outside its table.
  function SlotFor(ids: seq<int>, data: seq<Data>, id: int): int
    requires |ids| == SLOTS == |data|
  {
    Search(ids, data, id, 0, -1)
  }

  function Search(ids: seq<int>, data: seq<Data>, id: int, i: nat, free: int): int
    requires |ids| == SLOTS == |data| && i <= SLOTS
    decreases SLOTS - i
  {
    if i == SLOTS then free
    else if ids[i] == id then i
    else Search(ids, data, id, i + 1, if data[i] == [] then i else free)
  }

  lemma {:induction false} SearchFinds(ids: seq<int>, data: seq<Data>, id: int, i: nat, free: int)
    requires |ids| == SLOTS == |data| && i <= SLOTS && -1 <= free < i
    requires (free >= 0 ==> data[free] == []) && forall k | free < k < i :: data[k] != []
    requires forall k | 0 <= k < i :: ids[k] != id
    ensures var slot := Search(ids, data, id, i, free);
            && -1 <= slot < SLOTS
            && (slot >= 0 && ids[slot] != id ==> data[slot] == [] && forall k | 0 <= k < SLOTS :: ids[k] != id)
            && (slot >= 0 && ids[slot] != id ==> forall k | slot < k < SLOTS :: data[k] != [])
            && (slot >= 0 && ids[slot] == id ==> forall k | 0 <= k < slot :: ids[k] != id)
            && (slot == -1 ==> forall k | 0 <= k < SLOTS :: ids[k] != id && data[k] != [])
    decreases SLOTS - i
  {
    if i < SLOTS && ids[i] != id { SearchFinds(ids, data, id, i + 1, if data[i] == [] then i else free); }
  }

  // What a fragment does to the table, where a slot was found for it.
  function Filed(ids: seq<int>, data: seq<Data>, f: Fragment): (r: (Outcome, seq<int>, seq<Data>))
    requires |ids| == SLOTS == |data|
    ensures |r.1| == SLOTS == |r.2|
  {
    var slot := SlotFor(ids, data, f.id);
    if f.wholeSize < 0 || !(0 <= slot < SLOTS) then (Rejected, ids, data)
    else if |f.data| > UINT_MAX - |data[slot]| - PADDING then (Rejected, ids[slot := f.id], data)
    else
      var whole := data[slot] + f.data;
      if |whole| >= f.wholeSize then (Complete(whole), ids[slot := 0], data[slot := []])
      else (Stored, ids[slot := f.id], data[slot := whole])
  }

  class CFrameTable {
    const version: int
    const ids: array<int>
    const data: array<Data>

    ghost predicate Valid() { ids.Length == SLOTS == data.Length }

    constructor (version: int)
      ensures Valid() && fresh(ids) && fresh(data) && this.version == version
      ensures Table(ids[..], data[..]) == Empty()
    {
      this.version := version;
      ids := new int[SLOTS](_ => 0);
      data := new Data[SLOTS](_ => []);
      new;
      assert ids[..] == seq(SLOTS, i => 0) && data[..] == seq(SLOTS, i => []);
    }

    method FindSlot(id: int) returns (slot: int)
      requires Valid()
      ensures slot == SlotFor(ids[..], data[..], id) && slot < SLOTS
    {
      slot := -1;
      for i: nat := 0 to SLOTS
        invariant slot < SLOTS && Search(ids[..], data[..], id, i, slot) == SlotFor(ids[..], data[..], id)
      {
        if ids[i] == id {
          return i;
        }
        if |data[i]| == 0 { slot := i; }
      }
    }

    // A fragment that is not rejected for its version or size needs a slot of its number or one
    // without data.
    method Add(f: Fragment) returns (r: Outcome)
      requires Valid() && (version > 1 && f.wholeSize >= 0 ==> SlotFor(ids[..], data[..], f.id) >= 0)
      modifies ids, data
      ensures version <= 1 ==> (r, ids[..], data[..]) == (Rejected, old(ids[..]), old(data[..]))
      ensures version > 1 ==> (r, ids[..], data[..]) == Filed(old(ids[..]), old(data[..]), f)
    {
      if version <= 1 {
        return Rejected;
      }
      if f.wholeSize < 0 {
        return Rejected;
      }
      var slot := FindSlot(f.id);
      hide SlotFor;
      ids[slot] := f.id;
      assert ids[..] == old(ids[..])[slot := f.id];
      if |f.data| > UINT_MAX - |data[slot]| - PADDING {
        return Rejected;
      }
      data[slot] := data[slot] + f.data;
      assert data[..] == old(data[..])[slot := data[slot]];
      if |data[slot]| >= f.wholeSize {
        r := Complete(data[slot]);
        ids[slot], data[slot] := 0, [];
        assert ids[..] == old(ids[..])[slot := 0] && data[..] == old(data[..])[slot := []];
      } else {
        r := Stored;
      }
    }
  }

  // ------------------------------------------------------------------ the table stands for a map

  // No two slots collect the same frame. Number 0 marks unused slots; data of a frame of this
  // number may only be in the first slot.
  ghost predicate WellFormed(ids: seq<int>, data: seq<Data>) {
    && |ids| == SLOTS == |data|
    && (forall i, j | 0 <= i < SLOTS && 0 <= j < SLOTS && i != j && ids[i] == ids[j] :: ids[i] == 0)
    && (forall i | 0 < i < SLOTS && ids[i] == 0 :: data[i] == [])
  }

  // Slot i may hold data of the frame whose number it carries.
  predicate Holds(ids: seq<int>, i: nat)
    requires i < |ids|
  {
    i == 0 || ids[i] != 0
  }

  ghost predicate HasSlot(ids: seq<int>, x: int) { exists i: nat :: i < |ids| && Holds(ids, i) && ids[i] == x }

  // The slots hold exactly the unfinished frames of the map.
  ghost predicate Stands(ids: seq<int>, data: seq<Data>, m: map<int, Data>) {
    && WellFormed(ids, data)
    && (forall i: nat | i < SLOTS && Holds(ids, i) :: Get(m, ids[i]) == data[i])
    && (forall x | x in m :: m[x] != [] && HasSlot(ids, x))
  }

  lemma StoreKeeps(ids: seq<int>, data: seq<Data>, m: map<int, Data>, slot: nat, bytes: Data)
    requires Stands(ids, data, m) && slot < SLOTS && Holds(ids, slot)
    ensures Stands(ids, data[slot := bytes], if bytes == [] then m - {ids[slot]} else m[ids[slot] := bytes])
  {
    var id := ids[slot];
    var n := if bytes == [] then m - {id} else m[id := bytes];
    forall i: nat | i < SLOTS && Holds(ids, i) ensures Get(n, ids[i]) == data[slot := bytes][i] {
      assert Get(m, ids[i]) == data[i];
      assert i != slot ==> ids[i] != id;
    }
    forall x | x in n ensures n[x] != [] && HasSlot(ids, x) {
      if x == id { assert Holds(ids, slot); }
    }
  }

  lemma FoundSlotKeeps(ids: seq<int>, data: seq<Data>, m: map<int, Data>, f: Fragment, slot: nat)
    requires Stands(ids, data, m) && slot < SLOTS && (f.id == 0 ==> slot == 0)
    requires ids[slot] == f.id || (data[slot] == [] && forall i | 0 <= i < SLOTS :: ids[i] != f.id)
    ensures var whole := data[slot] + f.data;
            && data[slot] == Get(m, f.id)
            && Stands(ids[slot := f.id], data, m)
            && Stands(ids[slot := 0], data[slot := []], m - {f.id})
            && Stands(ids[slot := f.id], data[slot := whole], if whole == [] then m else m[f.id := whole])
  {
    var claimed, whole := ids[slot := f.id], data[slot] + f.data;
    hide Stands;
    assert Holds(claimed, slot);
    StoreKeeps(claimed, data, m, slot, whole);
    StoreKeeps(claimed, data, m, slot, []);
    assert claimed[slot := 0] == ids[slot := 0];
    assert whole == [] ==> data[slot] == [];
    assert f.id !in m ==> m - {f.id} == m;
  }

  // A step of the table is a step of the map, as long as number 0 finds the first slot unused.
  lemma FiledIsTake(ids: seq<int>, data: seq<Data>, m: map<int, Data>, f: Fragment)
    requires Stands(ids, data, m) && (f.id == 0 ==> ids[0] == 0)
    requires f.wholeSize >= 0 ==> SlotFor(ids, data, f.id) >= 0
    ensures var (r, ids', data') := Filed(ids, data, f);
            r == Take(m, f).0 && Stands(ids', data', Take(m, f).1)
  {
    assert |ids| == SLOTS == |data|;
    SearchFinds(ids, data, f.id, 0, -1);
    hide Stands, SlotFor, Get;
    if f.wholeSize >= 0 {
      var slot := SlotFor(ids, data, f.id);
      FoundSlotKeeps(ids, data, m, f, slot);
    }
  }

  lemma DataIsPending(ids: seq<int>, data: seq<Data>, m: map<int, Data>, i: nat)
    requires Stands(ids, data, m) && i < SLOTS && data[i] != []
    ensures ids[i] in m && Holds(ids, i)
  {
    assert Holds(ids, i);
    assert Get(m, ids[i]) == data[i];
  }

  // A fragment finds no slot exactly if 100 other frames are unfinished.
  lemma RoomIsLeft(ids: seq<int>, data: seq<Data>, m: map<int, Data>, id: int)
    requires Stands(ids, data, m)
    ensures SlotFor(ids, data, id) >= 0 <==> |m.Keys + {id}| <= SLOTS
  {
    SearchFinds(ids, data, id, 0, -1);
    if SlotFor(ids, data, id) < 0 {
      NoSlotIsFree(ids, data, m, id);
    } else {
      SomeSlotIsFree(ids, data, m, id, SlotFor(ids, data, id));
    }
  }

  lemma NoSlotIsFree(ids: seq<int>, data: seq<Data>, m: map<int, Data>, id: int)
    requires Stands(ids, data, m) && forall k | 0 <= k < SLOTS :: ids[k] != id && data[k] != []
    ensures |m.Keys + {id}| == SLOTS + 1
  {
    forall i: nat | i < SLOTS ensures ids[i] in m && Holds(ids, i) { DataIsPending(ids, data, m, i); }
    CountNumbers(ids, SLOTS);
    assert Numbers(ids, SLOTS) == m.Keys by {
      forall x | x in m ensures x in Numbers(ids, SLOTS) { assert HasSlot(ids, x); }
    }
    assert id !in m by { assert id in m ==> HasSlot(ids, id); }
  }

  // If a slot belongs to the number or has no data, the unfinished frames fit beside it.
  lemma SomeSlotIsFree(ids: seq<int>, data: seq<Data>, m: map<int, Data>, id: int, k: nat)
    requires Stands(ids, data, m) && k < SLOTS && (ids[k] == id || data[k] == [])
    ensures |m.Keys + {id}| <= SLOTS
  {
    var renamed := ids[k := id];
    AtMostNumbers(renamed, SLOTS);
    assert renamed[k] == id;
    forall x | x in m ensures x in Numbers(renamed, SLOTS) {
      assert HasSlot(ids, x);
      var i: nat :| i < |ids| && Holds(ids, i) && ids[i] == x;
      assert i == k || renamed[i] == x;
    }
    SubsetSize(m.Keys + {id}, Numbers(renamed, SLOTS));
  }

  // The first slot goes to a frame only if 99 others are unfinished besides number 0.
  lemma FirstSlotIsLast(ids: seq<int>, data: seq<Data>, m: map<int, Data>, id: int)
    requires Stands(ids, data, m) && ids[0] == 0 && id != 0 && SlotFor(ids, data, id) == 0
    ensures |(m.Keys + {id}) - {0}| == SLOTS
  {
    SearchFinds(ids, data, id, 0, -1);
    hide SlotFor;
    var named := ids[0 := id];
    forall i: nat | 0 < i < SLOTS ensures ids[i] in m && ids[i] != 0 { DataIsPending(ids, data, m, i); }
    CountNumbers(named, SLOTS);
    assert named[0] == id;
    assert Numbers(named, SLOTS) == (m.Keys + {id}) - {0} by {
      forall x | x in m && x != 0 ensures x in Numbers(named, SLOTS) { OthersAreNamed(ids, data, m, id, x); }
    }
  }

  lemma OthersAreNamed(ids: seq<int>, data: seq<Data>, m: map<int, Data>, id: int, x: int)
    requires Stands(ids, data, m) && ids[0] == 0 && x in m && x != 0
    ensures x in Numbers(ids[0 := id], SLOTS)
  {
    assert HasSlot(ids, x);
    var i: nat :| i < |ids| && Holds(ids, i) && ids[i] == x;
    assert ids[0 := id][i] == x;
  }

  lemma SubsetSize(a: set<int>, b: set<int>)
    requires a <= b
    ensures |a| <= |b|
  {
    assert b == a + (b - a);
  }

  lemma {:induction false} AtMostNumbers(ids: seq<int>, n: nat)
    requires n <= |ids|
    ensures |Numbers(ids, n)| <= n
  {
    if n > 0 {
      AtMostNumbers(ids, n - 1);
      assert Numbers(ids, n) == Numbers(ids, n - 1) + {ids[n - 1]};
    }
  }

  function Numbers(ids: seq<int>, n: nat): set<int>
    requires n <= |ids|
  {
    set i | 0 <= i < n :: ids[i]
  }

  lemma {:induction false} CountNumbers(ids: seq<int>, n: nat)
    requires n <= |ids| && forall i, j | 0 <= i < j < |ids| :: ids[i] != ids[j]
    ensures |Numbers(ids, n)| == n
  {
    if n > 0 {
      CountNumbers(ids, n - 1);
      assert Numbers(ids, n) == Numbers(ids, n - 1) + {ids[n - 1]};
      assert ids[n - 1] !in Numbers(ids, n - 1);
    }
  }

  // ------------------------------------------------------------------ whole runs

  // The unfinished frames after a history of fragments, newest last.
  function After(h: seq<Fragment>): map<int, Data>
    decreases |h|
  {
    if h == [] then map[] else Take(After(h[..|h| - 1]), h[|h| - 1]).1
  }

  // The frames completed under one number, in order.
  function Completed(h: seq<Fragment>, id: int): seq<Data>
    decreases |h|
  {
    if h == [] then []
    else
      var front, f := h[..|h| - 1], h[|h| - 1];
      match Take(After(front), f).0
      case Complete(frame) => if f.id == id then Completed(front, id) + [frame] else Completed(front, id)
      case _ => Completed(front, id)
  }

  // The fragments of one frame number alone, in arrival order.
  function Only(h: seq<Fragment>, id: int): seq<Fragment>
    decreases |h|
  {
    if h == [] then []
    else if h[|h| - 1].id == id then Only(h[..|h| - 1], id) + [h[|h| - 1]]
    else Only(h[..|h| - 1], id)
  }

  // The data of all fragments the table did not reject.
  function Arrived(h: seq<Fragment>, id: int): Data
    decreases |h|
  {
    if h == [] then []
    else
      var front, f := h[..|h| - 1], h[|h| - 1];
      if f.id == id && !Take(After(front), f).0.Rejected? then Arrived(front, id) + f.data else Arrived(front, id)
  }

  function Concat(parts: seq<Data>): Data
    decreases |parts|
  {
    if parts == [] then [] else Concat(parts[..|parts| - 1]) + parts[|parts| - 1]
  }

  // Nothing is lost, duplicated or mixed up: the completed frames of a number, followed by what
  // is still pending, are exactly the data that arrived under this number, in order.
  lemma {:induction false} FramesAreTheirFragments(h: seq<Fragment>, id: int)
    ensures Concat(Completed(h, id)) + Get(After(h), id) == Arrived(h, id)
    decreases |h|
  {
    if h != [] {
      var front, f := h[..|h| - 1], h[|h| - 1];
      FramesAreTheirFragments(front, id);
      var done, pending, r := Completed(front, id), Get(After(front), id), Take(After(front), f);
      AfterStep(front, f, h);
      CompletedStep(front, f, h, id);
      TakeMeans(After(front), f, id);
      hide *;
      if f.id == id && r.0.Complete? {
      } else if f.id == id && r.0.Stored? {
      }
    } else {
      assert Concat([]) + [] == [];
    }
  }

  // What a fragment does to the data pending under any number.
  lemma TakeMeans(m: map<int, Data>, f: Fragment, id: int)
    ensures var (r, n) := Take(m, f);
            && (f.id != id || r.Rejected? ==> Get(n, id) == Get(m, id))
            && (f.id == id && r.Stored? ==> Get(n, id) == Get(m, id) + f.data)
            && (f.id == id && r.Complete? ==> Get(n, id) == [] && r.frame == Get(m, id) + f.data)
  {}

  // A fragment only looks at and changes what is pending under its own number.
  lemma TakeIsLocal(m: map<int, Data>, n: map<int, Data>, f: Fragment, id: int)
    requires Get(m, id) == Get(n, id)
    ensures f.id == id ==> Take(m, f).0 == Take(n, f).0 && Get(Take(m, f).1, id) == Get(Take(n, f).1, id)
    ensures f.id != id ==> Get(Take(m, f).1, id) == Get(m, id)
  {}

  // The frames under one number do not depend on how other numbers are interleaved with them.
  lemma {:induction false} InterleavingIsIrrelevant(h: seq<Fragment>, id: int)
    ensures Get(After(h), id) == Get(After(Only(h, id)), id)
    ensures Completed(h, id) == Completed(Only(h, id), id)
    decreases |h|
  {
    if h != [] {
      var front, f := h[..|h| - 1], h[|h| - 1];
      InterleavingIsIrrelevant(front, id);
      TakeIsLocal(After(front), After(Only(front, id)), f, id);
      if f.id == id {
        var rest := Only(front, id);
        assert (rest + [f])[..|rest|] == rest;
        assert After(rest + [f]) == Take(After(rest), f).1;
        hide After, Take, Only;
      }
    }
  }

  // A frame is completed as soon as the data pending under its number reach the announced size.
  lemma {:induction false} PendingIsTooShort(h: seq<Fragment>, id: int)
    requires forall i | 0 <= i < |h| && h[i].id == id :: h[i].wholeSize == h[0].wholeSize
    requires h != [] && h[0].id == id && 0 < h[0].wholeSize
    ensures |Get(After(h), id)| < h[0].wholeSize
    decreases |h|
  {
    var front, f := h[..|h| - 1], h[|h| - 1];
    if front != [] {
      PendingIsTooShort(front, id);
    } else {
      assert After(front) == map[];
    }
  }

  // ------------------------------------------------------------------ runs of the table

  // Overrun: a fragment found no slot, where the source writes outside its table.
  datatype Table = Table(ids: seq<int>, data: seq<Data>) | Overrun

  function Empty(): Table { Table(seq(SLOTS, i => 0), seq(SLOTS, i => [])) }

  function TableStep(t: Table, f: Fragment): (r: (Outcome, Table))
    ensures r.1.Table? ==> |r.1.ids| == SLOTS == |r.1.data|
  {
    if t.Overrun? || |t.ids| != SLOTS || |t.data| != SLOTS then (Rejected, Overrun)
    else if f.wholeSize >= 0 && SlotFor(t.ids, t.data, f.id) < 0 then (Rejected, Overrun)
    else
      var (r, ids, data) := Filed(t.ids, t.data, f);
      (r, Table(ids, data))
  }

  function TableAfter(h: seq<Fragment>): Table
    decreases |h|
  {
    if h == [] then Empty() else TableStep(TableAfter(h[..|h| - 1]), h[|h| - 1]).1
  }

  // Every fragment with valid sizes leaves, with its own, at most 100 frames unfinished.
  ghost predicate NeverCrowded(h: seq<Fragment>)
    decreases |h|
  {
    h == [] || (NeverCrowded(h[..|h| - 1])
                && (h[|h| - 1].wholeSize >= 0 ==> |After(h[..|h| - 1]).Keys + {h[|h| - 1].id}| <= SLOTS))
  }

  // With every fragment of valid sizes at most bound frames of other numbers than 0 are unfinished.
  ghost predicate Within(h: seq<Fragment>, bound: nat)
    decreases |h|
  {
    h == [] || (Within(h[..|h| - 1], bound)
                && (h[|h| - 1].wholeSize >= 0 ==> |(After(h[..|h| - 1]).Keys + {h[|h| - 1].id}) - {0}| <= bound))
  }

  // One slot is left for number 0.
  ghost predicate RoomForZero(h: seq<Fragment>) { Within(h, SLOTS - 1) }

  predicate NoZero(h: seq<Fragment>) { forall i | 0 <= i < |h| :: h[i].id != 0 }

  ghost predicate TableStands(t: Table, m: map<int, Data>) { t.Table? && Stands(t.ids, t.data, m) }

  // The table refines the map: after any history it stands for the map, or it has been overrun,
  // and this exactly if there were too many frames at some time. If the history uses number 0,
  // one slot less must suffice for the other frames.
  lemma {:induction false} TableRefinesMap(h: seq<Fragment>)
    requires NoZero(h) || RoomForZero(h)
    ensures if NeverCrowded(h) then TableStands(TableAfter(h), After(h)) else TableAfter(h) == Overrun
    ensures NeverCrowded(h) && RoomForZero(h) ==> TableAfter(h).ids[0] == 0
    decreases |h|
  {
    if h == [] {
      assert WellFormed(Empty().ids, Empty().data);
    } else {
      var front, f := h[..|h| - 1], h[|h| - 1];
      TableRefinesMap(front);
      if NeverCrowded(front) {
        var t := TableAfter(front);
        assert f.id != 0 || RoomForZero(h);
        hide TableStep, After;
        StepRefines(t, After(front), f);
        if RoomForZero(h) { FirstSlotStaysFree(t, After(front), f); }
        AfterStep(front, f, h);
      }
    }
  }

  // The frames the table completes under one number.
  function TableCompleted(h: seq<Fragment>, id: int): seq<Data>
    decreases |h|
  {
    if h == [] then []
    else
      var front, f := h[..|h| - 1], h[|h| - 1];
      match TableStep(TableAfter(front), f).0
      case Complete(frame) => if f.id == id then TableCompleted(front, id) + [frame] else TableCompleted(front, id)
      case _ => TableCompleted(front, id)
  }

  // Over whole runs the table completes the frames that the map completes.
  lemma {:induction false} TableCompletes(h: seq<Fragment>, id: int)
    requires (NoZero(h) || RoomForZero(h)) && NeverCrowded(h)
    ensures TableCompleted(h, id) == Completed(h, id)
    decreases |h|
  {
    if h != [] {
      var front, f := h[..|h| - 1], h[|h| - 1];
      assert NoZero(h) ==> NoZero(front);
      TableCompletes(front, id);
      TableRefinesMap(front);
      assert f.id != 0 || RoomForZero(h);
      StepRefines(TableAfter(front), After(front), f);
      hide TableStep, Take, After, TableAfter;
    }
  }

  // One step: same outcome, and the table stands for the new map, unless it is overrun.
  lemma StepRefines(t: Table, m: map<int, Data>, f: Fragment)
    requires TableStands(t, m) && (f.id == 0 ==> t.ids[0] == 0)
    ensures if f.wholeSize >= 0 ==> |m.Keys + {f.id}| <= SLOTS
            then TableStep(t, f).0 == Take(m, f).0 && TableStands(TableStep(t, f).1, Take(m, f).1)
            else TableStep(t, f).1 == Overrun
  {
    RoomIsLeft(t.ids, t.data, m, f.id);
    if f.wholeSize >= 0 ==> SlotFor(t.ids, t.data, f.id) >= 0 { FiledIsTake(t.ids, t.data, m, f); }
    assert |t.ids| == SLOTS == |t.data|;
    hide Filed, Stands, SlotFor;
  }

  lemma FirstSlotStaysFree(t: Table, m: map<int, Data>, f: Fragment)
    requires TableStands(t, m) && t.ids[0] == 0
    requires f.wholeSize >= 0 ==> |(m.Keys + {f.id}) - {0}| < SLOTS
    ensures TableStep(t, f).1.Table? ==> TableStep(t, f).1.ids[0] == 0
  {
    assert |t.ids| == SLOTS == |t.data|;
    hide Stands, SlotFor;
    if f.wholeSize >= 0 && f.id != 0 && SlotFor(t.ids, t.data, f.id) == 0 { FirstSlotIsLast(t.ids, t.data, m, f.id); }
  }

  // ------------------------------------------------------------------ whole frames

  function DataOf(parts: seq<Fragment>): Data
    decreases |parts|
  {
    if parts == [] then [] else DataOf(parts[..|parts| - 1]) + parts[|parts| - 1].data
  }

  // Fragments of one frame, all announcing the same size, which none but the last one reaches.
  ghost predicate Parts(parts: seq<Fragment>, id: int, wholeSize: nat) {
    && wholeSize <= UINT_MAX - PADDING
    && (forall i | 0 <= i < |parts| :: parts[i].id == id && parts[i].wholeSize == wholeSize)
    && (forall i | 0 <= i < |parts| :: |DataOf(parts[..i])| < wholeSize)
  }

  // All parts but the last one are parts, too, and do not reach the announced size.
  lemma PartsFront(parts: seq<Fragment>, id: int, wholeSize: nat)
    requires Parts(parts, id, wholeSize) && parts != []
    ensures var front, f := parts[..|parts| - 1], parts[|parts| - 1];
            && Parts(front, id, wholeSize) && |DataOf(front)| < wholeSize
            && f.id == id && f.wholeSize == wholeSize && DataOf(parts) == DataOf(front) + f.data
  {
    var front := parts[..|parts| - 1];
    forall i | 0 <= i < |front| ensures |DataOf(front[..i])| < wholeSize { assert front[..i] == parts[..i]; }
  }

  // As long as the announced size is not reached, the fragments just collect.
  lemma {:induction false} PartsCollect(h: seq<Fragment>, parts: seq<Fragment>, id: int, wholeSize: nat)
    requires Parts(parts, id, wholeSize) && Get(After(h), id) == [] && |DataOf(parts)| < wholeSize
    ensures Get(After(h + parts), id) == DataOf(parts) && Completed(h + parts, id) == Completed(h, id)
    decreases |parts|
  {
    if parts == [] {
      assert h + parts == h;
    } else {
      var front, f := parts[..|parts| - 1], parts[|parts| - 1];
      PartsFront(parts, id, wholeSize);
      assert wholeSize <= UINT_MAX - PADDING;
      assert (h + parts)[..|h + parts| - 1] == h + front && (h + parts)[|h + parts| - 1] == f;
      hide *;
      PartsCollect(h, front, id, wholeSize);
      AfterStep(h + front, f, h + parts);
      CompletedStep(h + front, f, h + parts, id);
    }
  }

  // A frame whose fragments arrive between fragments of other frames in any way is completed by
  // its last fragment, and is the concatenation of its own fragments in arrival order.
  lemma FrameIsDelivered(h: seq<Fragment>, before: seq<Fragment>, parts: seq<Fragment>, id: int, wholeSize: nat)
    requires Only(h, id) == before + parts && Get(After(before), id) == []
    requires parts != [] && Parts(parts, id, wholeSize)
    requires |DataOf(parts)| >= wholeSize && |DataOf(parts)| <= UINT_MAX - PADDING
    ensures Completed(h, id) == Completed(before, id) + [DataOf(parts)] && Get(After(h), id) == []
  {
    InterleavingIsIrrelevant(h, id);
    LastPart(before, parts, id, wholeSize);
  }

  lemma LastPart(before: seq<Fragment>, parts: seq<Fragment>, id: int, wholeSize: nat)
    requires Get(After(before), id) == [] && parts != [] && Parts(parts, id, wholeSize)
    requires |DataOf(parts)| >= wholeSize && |DataOf(parts)| <= UINT_MAX - PADDING
    ensures Completed(before + parts, id) == Completed(before, id) + [DataOf(parts)]
        && Get(After(before + parts), id) == []
  {
    var front, f, own := parts[..|parts| - 1], parts[|parts| - 1], before + parts;
    PartsFront(parts, id, wholeSize);
    assert own[..|own| - 1] == before + front && own[|own| - 1] == f;
    hide *;
    PartsCollect(before, front, id, wholeSize);
    AfterStep(before + front, f, own);
    CompletedStep(before + front, f, own, id);
  }

  lemma AfterStep(front: seq<Fragment>, f: Fragment, h: seq<Fragment>)
    requires h != [] && h[..|h| - 1] == front && h[|h| - 1] == f
    ensures After(h) == Take(After(front), f).1
  {}

  lemma CompletedStep(front: seq<Fragment>, f: Fragment, h: seq<Fragment>, id: int)
    requires h != [] && h[..|h| - 1] == front && h[|h| - 1] == f
    ensures var r := Take(After(front), f).0;
            Completed(h, id) == if r.Complete? && f.id == id then Completed(front, id) + [r.frame]
                else Completed(front, id)
  {}

  // The same frame comes out of the table.
  lemma TableDeliversFrame(h: seq<Fragment>, before: seq<Fragment>, parts: seq<Fragment>, id: int, wholeSize: nat)
    requires (NoZero(h) || RoomForZero(h)) && NeverCrowded(h)
    requires Only(h, id) == before + parts && Get(After(before), id) == []
    requires parts != [] && Parts(parts, id, wholeSize)
    requires |DataOf(parts)| >= wholeSize && |DataOf(parts)| <= UINT_MAX - PADDING
    ensures TableCompleted(h, id) == Completed(before, id) + [DataOf(parts)]
  {
    FrameIsDelivered(h, before, parts, id, wholeSize);
    TableCompletes(h, id);
  }
}
