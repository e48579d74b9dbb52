/** The linked task queue (server/taskQueue.c).  A new node's link is whatever
    `malloc` left there, and a pop to empty leaves the head pointer at whatever
    that link was, so the size field alone says which pointers mean anything. */
module TaskQueue {

  datatype QueueOp = Push(netFd: int) | Pop

  /** The queue's meaning: push at the back, pop at the front (nothing to pop from empty). */
  function ApplyOp(q: seq<int>, op: QueueOp): seq<int> {
    match op
    case Push(fd) => q + [fd]
    case Pop => if q == [] then q else q[1..]
  }

  function RunOps(q: seq<int>, ops: seq<QueueOp>): seq<int> {
    if ops == [] then q else ApplyOp(RunOps(q, ops[..|ops| - 1]), ops[|ops| - 1])
  }

  function Pushes(ops: seq<QueueOp>): seq<int> {
    if ops == [] then []
    else Pushes(ops[..|ops| - 1]) + (if ops[|ops| - 1].Push? then [ops[|ops| - 1].netFd] else [])
  }

  /** What the pops of a history return, in order. */
  function Popped(q: seq<int>, ops: seq<QueueOp>): seq<int> {
    if ops == [] then []
    else
      var before := RunOps(q, ops[..|ops| - 1]);
      Popped(q, ops[..|ops| - 1]) + (if ops[|ops| - 1].Pop? && before != [] then [before[0]] else [])
  }

  /** Conservation and first-in-first-out order over any history. */
  lemma {:induction false} FifoHistory(q: seq<int>, ops: seq<QueueOp>)
    ensures q + Pushes(ops) == Popped(q, ops) + RunOps(q, ops)
  {
    if ops != [] {
      var init, last := ops[..|ops| - 1], ops[|ops| - 1];
      FifoHistory(q, init);
      var before := RunOps(q, init);
      match last
      case Push(fd) =>
        assert q + (Pushes(init) + [fd]) == (q + Pushes(init)) + [fd];
        assert (Popped(q, init) + before) + [fd] == Popped(q, init) + (before + [fd]);
      case Pop =>
        if before != [] {
          assert Popped(q, init) + before == (Popped(q, init) + [before[0]]) + before[1..];
        }
    }
  }

  lemma NoOps(q: seq<int>)
    ensures RunOps(q, []) == q && Popped(q, []) == []
  {
  }

  lemma OneMoreOp(q: seq<int>, ops: seq<QueueOp>, k: nat)
    requires k < |ops|
    ensures var now := RunOps(q, ops[..k]);
            && RunOps(q, ops[..k + 1]) == ApplyOp(now, ops[k])
            && Popped(q, ops[..k + 1]) == Popped(q, ops[..k]) + (if ops[k].Pop? && now != [] then [now[0]] else [])
  {
    assert ops[..k + 1][..k] == ops[..k];
  }

  /** A queue node.  `live` is false once the node has been freed; every read
      or write through a node pointer goes through a member that demands it. */
  class Node {
    var netFd: int
    var Pnext_: Node?
    ghost var live: bool

    constructor Malloc(netFd: int, garbage: Node?)
      ensures live && this.netFd == netFd && Pnext_ == garbage
    {
      this.netFd, this.Pnext_, this.live := netFd, garbage, true;
    }

    method GetFd() returns (fd: int)
      requires live
      ensures fd == netFd
    {
      fd := netFd;
    }

    method GetNext() returns (next: Node?)
      requires live
      ensures next == Pnext_
    {
      next := Pnext_;
    }

    method SetNext(next: Node)
      requires live
      modifies `Pnext_
      ensures Pnext_ == next
    {
      Pnext_ := next;
    }

    method Free()
      requires live
      modifies `live
      ensures !live
    {
      live := false;
    }
  }

  class TaskQueue {
    var queueSize_: int
    var phead_: Node?
    var ptail_: Node?
    ghost var nodes: seq<Node>  // the queued nodes, head first

    ghost predicate Valid()
      reads this, nodes
    {
      && queueSize_ == |nodes|
      && (nodes != [] ==> phead_ == nodes[0] && ptail_ == nodes[|nodes| - 1])
      && (forall i :: 0 <= i < |nodes| ==> nodes[i].live)
      && (forall i, j :: 0 <= i < j < |nodes| ==> nodes[i] != nodes[j])
      && (forall i :: 0 <= i < |nodes| - 1 ==> nodes[i].Pnext_ == nodes[i + 1])
      // nothing is said of the last link, nor of the pointers of an empty queue
    }

    ghost function Contents(): (s: seq<int>)
      reads this, nodes
      ensures |s| == |nodes|
    {
      seq(|nodes|, i requires 0 <= i < |nodes| reads this, nodes => nodes[i].netFd)
    }

    /** taskQueueInit */
    constructor ()
      ensures Valid() && Contents() == [] && nodes == []
    {
      queueSize_, phead_, ptail_ := 0, null, null;
      nodes := [];
    }

    /** taskQueuePush.  `garbage` is what `malloc` left in the new node's link. */
    method Push(netFd: int, garbage: Node?)
      requires Valid()
      modifies this, nodes
      ensures Valid() && Contents() == old(Contents()) + [netFd]
      ensures |nodes| == old(|nodes|) + 1 && nodes[..|nodes| - 1] == old(nodes) && fresh(nodes[|nodes| - 1])
    {
      var newNode := new Node.Malloc(netFd, garbage);
      if queueSize_ == 0 {
        phead_ := newNode;
        ptail_ := newNode;
      } else {
        var tailNode := ptail_;
        tailNode.SetNext(newNode);
        ptail_ := newNode;
      }
      queueSize_ := queueSize_ + 1;
      nodes := nodes + [newNode];
    }

    /** taskQueuePop */
    method Pop() returns (ret: int)
      requires Valid()
      modifies this, nodes
      ensures Valid()
      ensures ret == if old(Contents()) == [] then -1 else 0
      ensures Contents() == if old(Contents()) == [] then [] else old(Contents())[1..]
      ensures nodes == if old(nodes) == [] then [] else old(nodes)[1..]
      ensures old(nodes) != [] ==> !old(nodes)[0].live
    {
      if queueSize_ == 0 {
        return -1;
      }
      var pCur := phead_;
      phead_ := pCur.GetNext();
      if queueSize_ == 1 {
        ptail_ := null;
      }
      pCur.Free();
      queueSize_ := queueSize_ - 1;
      nodes := nodes[1..];
      return 0;
    }

    /** The read `phead_->netFd` of worker.c line 61: it needs a non-empty queue. */
    method HeadFd() returns (fd: int)
      requires Valid() && queueSize_ > 0
      ensures fd == Contents()[0]
    {
      fd := phead_.GetFd();
    }

    lemma SizeIsLength()
      requires Valid()
      ensures queueSize_ == |Contents()|
    {
    }

    /** Any history of pushes and pops, with arbitrary garbage in every new link,
        leaves and returns what the sequence does. */
    method RunHistory(ops: seq<QueueOp>, garbage: seq<Node?>) returns (popped: seq<int>)
      requires Valid() && |garbage| == |ops|
      modifies this, nodes
      ensures Valid() && Contents() == RunOps(old(Contents()), ops)
      ensures popped == Popped(old(Contents()), ops)
      ensures old(Contents()) + Pushes(ops) == popped + Contents()
    {
      hide RunOps, Popped, Pushes, Valid, Contents;
      popped := [];
      ghost var start := Contents();
      NoOps(start);
      for k := 0 to |ops|
        invariant Valid() && Contents() == RunOps(start, ops[..k])
        invariant popped == Popped(start, ops[..k])
        invariant forall i :: 0 <= i < |nodes| ==> nodes[i] in old(nodes) || fresh(nodes[i])
      {
        OneMoreOp(start, ops, k);
        SizeIsLength();
        match ops[k]
        case Push(fd) =>
          Push(fd, garbage[k]);
        case Pop =>
          if queueSize_ > 0 {
            var fd := HeadFd();
            popped := popped + [fd];
          }
          var _ := Pop();
      }
      assert ops[..|ops|] == ops;
      FifoHistory(old(Contents()), ops);
    }
  }
}
