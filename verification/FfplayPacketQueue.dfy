/** The packet queue of FFmpeg/fftools/ffplay.c. Every method body runs under the queue's lock;
    a blocking get that finds the queue empty waits and tries again. */
module FfplayPacketQueue {

  // Packets are numbered in the order in which the queue accepted them.
  datatype Packet = Packet(num: nat, size: nat, duration: nat)
  datatype Entry = Entry(pkt: Packet, serial: int)

  // sizeof(MyAVPacketList): a pointer and an int on a 64-bit machine.
  const ENTRY_SIZE: nat := 16

  datatype Queue = Queue(list: seq<Entry>, aborted: bool, serial: int)
  datatype Got = Aborted | Empty | Got(e: Entry)

  function Put(q: Queue, p: Packet): Queue {
    if q.aborted then q else q.(list := q.list + [Entry(p, q.serial)])
  }

  function Flush(q: Queue): Queue { q.(list := [], serial := q.serial + 1) }

  function Abort(q: Queue): Queue { q.(aborted := true) }

  function Start(q: Queue): Queue { q.(aborted := false, serial := q.serial + 1) }

  function TryGet(q: Queue): (Got, Queue) {
    if q.aborted then (Aborted, q)
    else if q.list == [] then (Empty, q)
    else (Got(q.list[0]), q.(list := q.list[1..]))
  }

  // An aborted queue takes and gives nothing; started again, it takes packets with the next serial
  // behind those it still holds. A flushed queue holds nothing else.
  lemma NewSerials(q: Queue, p: Packet)
    ensures TryGet(Abort(q)) == (Aborted, Abort(q)) && Put(Abort(q), p) == Abort(q)
    ensures Put(Start(Abort(q)), p) == Queue(q.list + [Entry(p, q.serial + 1)], false, q.serial + 1)
    ensures !q.aborted ==> Put(Flush(q), p) == Queue([Entry(p, q.serial + 1)], false, q.serial + 1)
  {}

  // Packets leave in the order in which they came, with the serial they came with.
  lemma {:induction false} QueueIsFifo(q: Queue, p: Packet, k: nat)
    requires !q.aborted && k == |q.list|
    ensures GetMany(Put(q, p), k + 1) == q.list + [Entry(p, q.serial)]
    decreases k
  {
    var r := Put(q, p);
    if k == 0 {
      assert GetMany(TryGet(r).1, 0) == [];
      assert q.list + [Entry(p, q.serial)] == [Entry(p, q.serial)];
    } else {
      var rest := q.(list := q.list[1..]);
      QueueIsFifo(rest, p, k - 1);
      assert (q.list + [Entry(p, q.serial)])[1..] == rest.list + [Entry(p, q.serial)];
      assert TryGet(r) == (Got(q.list[0]), Put(rest, p));
      assert [q.list[0]] + (rest.list + [Entry(p, q.serial)]) == q.list + [Entry(p, q.serial)];
    }
  }

  // What k calls of get return.
  function GetMany(q: Queue, k: nat): seq<Entry>
    decreases k
  {
    if k == 0 then []
    else
      match TryGet(q)
      case (Got(e), r) => [e] + GetMany(r, k - 1)
      case _ => []
  }

  function TotalSize(list: seq<Entry>): nat {
    if list == [] then 0 else list[0].pkt.size + ENTRY_SIZE + TotalSize(list[1..])
  }

  function TotalDuration(list: seq<Entry>): nat {
    if list == [] then 0 else list[0].pkt.duration + TotalDuration(list[1..])
  }

  lemma {:induction false} TotalsAppend(list: seq<Entry>, e: Entry)
    ensures TotalSize([]) == 0 == TotalDuration([])
    ensures TotalSize(list + [e]) == TotalSize(list) + e.pkt.size + ENTRY_SIZE
    ensures TotalDuration(list + [e]) == TotalDuration(list) + e.pkt.duration
  {
    if list == [] {
      assert [] + [e] == [e];
    } else {
      assert (list + [e])[1..] == list[1..] + [e];
      TotalsAppend(list[1..], e);
    }
  }

  class PacketQueue {
    var pktList: seq<Entry>
    var nbPackets: int
    var size: int
    var duration: int
    var abortRequest: bool
    var serial: int

    // The counters agree with the packets actually queued.
    ghost predicate Valid()
      reads this
    {
      nbPackets == |pktList| && size == TotalSize(pktList) && duration == TotalDuration(pktList)
    }

    ghost function Model(): Queue
      reads this
    {
      Queue(pktList, abortRequest, serial)
    }

    constructor ()
      ensures Valid() && Model() == Queue([], true, 0)
    {
      pktList, nbPackets, size, duration, abortRequest, serial := [], 0, 0, 0, true, 0;
    }

    method PutPrivate(p: Packet) returns (accepted: bool)
      requires Valid()
      modifies this
      ensures Valid() && accepted == !old(abortRequest) && Model() == Put(old(Model()), p)
    {
      if abortRequest {
        return false;
      }
      TotalsAppend(pktList, Entry(p, serial));
      pktList := pktList + [Entry(p, serial)];
      nbPackets := nbPackets + 1;
      size := size + p.size + ENTRY_SIZE;
      duration := duration + p.duration;
      return true;
    }

    method FlushQueue()
      requires Valid()
      modifies this
      ensures Valid() && Model() == Flush(old(Model()))
    {
      while |pktList| > 0
        invariant unchanged(`serial) && unchanged(`abortRequest)
        decreases |pktList|
      {
        pktList := pktList[1..];
      }
      nbPackets, size, duration := 0, 0, 0;
      serial := serial + 1;
    }

    method AbortQueue()
      requires Valid()
      modifies this
      ensures Valid() && Model() == Abort(old(Model()))
    {
      abortRequest := true;
    }

    method StartQueue()
      requires Valid()
      modifies this
      ensures Valid() && Model() == Start(old(Model()))
    {
      abortRequest := false;
      serial := serial + 1;
    }

    // One pass of packet_queue_get; a blocking caller waits and repeats it on Empty.
    method Get() returns (r: Got)
      requires Valid()
      modifies this
      ensures Valid() && (r, Model()) == TryGet(old(Model()))
    {
      if abortRequest {
        return Aborted;
      }
      if |pktList| == 0 {
        return Empty;
      }
      var e := pktList[0];
      pktList := pktList[1..];
      nbPackets := nbPackets - 1;
      size := size - (e.pkt.size + ENTRY_SIZE);
      duration := duration - e.pkt.duration;
      return Got(e);
    }
  }
}
