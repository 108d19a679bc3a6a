/**
  The list of client threads (aesdsocket_threads.c) on the SLIST macros of queue.h, linked and
  filtered in place. A node may be touched only while it is allocated; the list keeps track.
 */
module ThreadList {
  import opened Bytes

  class ThreadNode {
    var threadId: nat
    var threadCompleted: bool
    var clientSockFd: int
    var next: ThreadNode?

    constructor (threadId: nat, sockFd: int)
      ensures this.threadId == threadId && !threadCompleted && clientSockFd == sockFd && next == null
    {
      this.threadId, threadCompleted, clientSockFd, next := threadId, false, sockFd, null;
    }
  }

  /** The nodes whose threads have not completed, in order, given the set of those that have. */
  function Without(nodes: seq<ThreadNode>, done: set<ThreadNode>): (r: seq<ThreadNode>)
    ensures forall i :: 0 <= i < |r| ==> r[i] in nodes && r[i] !in done
    ensures forall i :: 0 <= i < |nodes| && nodes[i] !in done ==> nodes[i] in r
  {
    if nodes == [] then []
    else
      var last := nodes[|nodes| - 1];
      Without(nodes[..|nodes| - 1], done) + (if last in done then [] else [last])
  }

  /** The thread ids of the nodes in `done`, in list order. */
  function IdsOf(nodes: seq<ThreadNode>, done: set<ThreadNode>): (r: seq<nat>)
    reads (set n | n in nodes)`threadId
  {
    if nodes == [] then []
    else
      var last := nodes[|nodes| - 1];
      IdsOf(nodes[..|nodes| - 1], done) + (if last in done then [last.threadId] else [])
  }

  /** Filtering keeps the order, and drops a node exactly when its thread has completed. */
  lemma {:induction false} WithoutInOrder(a: seq<ThreadNode>, node: ThreadNode, b: seq<ThreadNode>,
                                          done: set<ThreadNode>)
    ensures Without(a + [node] + b, done) ==
            Without(a, done) + (if node in done then [] else [node]) + Without(b, done)
    decreases |b|
  {
    hide Without;
    if b == [] {
      NothingListed(done);
      WithoutLast(a, node, done);
      assert a + [node] + b == a + [node];
    } else {
      var b', last := b[..|b| - 1], b[|b| - 1];
      WithoutInOrder(a, node, b', done);
      WithoutLast(b', last, done);
      WithoutLast(a + [node] + b', last, done);
      assert b == b' + [last] && a + [node] + b == a + [node] + b' + [last];
    }
  }

  lemma NothingListed(done: set<ThreadNode>)
    ensures Without([], done) == [] && IdsOf([], done) == []
  {
  }

  lemma WithoutLast(nodes: seq<ThreadNode>, node: ThreadNode, done: set<ThreadNode>)
    ensures Without(nodes + [node], done) == Without(nodes, done) + (if node in done then [] else [node])
  {
    assert (nodes + [node])[..|nodes|] == nodes;
  }

  /** The ids are those of the nodes dropped, in the same order. */
  lemma {:induction false} IdsInOrder(a: seq<ThreadNode>, node: ThreadNode, b: seq<ThreadNode>, done: set<ThreadNode>)
    ensures IdsOf(a + [node] + b, done) ==
            IdsOf(a, done) + (if node in done then [node.threadId] else []) + IdsOf(b, done)
    decreases |b|
  {
    hide IdsOf;
    if b == [] {
      NothingListed(done);
      IdsLast(a, node, done);
      assert a + [node] + b == a + [node];
    } else {
      var b', last := b[..|b| - 1], b[|b| - 1];
      IdsInOrder(a, node, b', done);
      IdsLast(b', last, done);
      IdsLast(a + [node] + b', last, done);
      assert b == b' + [last] && a + [node] + b == a + [node] + b' + [last];
    }
  }

  lemma IdsLast(nodes: seq<ThreadNode>, node: ThreadNode, done: set<ThreadNode>)
    ensures IdsOf(nodes + [node], done) == IdsOf(nodes, done) + (if node in done then [node.threadId] else [])
  {
    assert (nodes + [node])[..|nodes|] == nodes;
  }

  /** The nodes seen so far, of `seen` followed by `rest`, leave these kept, ids to join, and nodes to free. */
  ghost predicate Scanned(nodes: seq<ThreadNode>, done: set<ThreadNode>, seen: seq<ThreadNode>, rest: seq<ThreadNode>,
                          kept: seq<ThreadNode>, ids: seq<nat>, gone: set<ThreadNode>)
    reads (set n | n in seen)`threadId
  {
    nodes == seen + rest && kept == Without(seen, done) && ids == IdsOf(seen, done) && gone == Among(seen, done)
  }

  lemma ScanStart(nodes: seq<ThreadNode>, done: set<ThreadNode>)
    ensures Scanned(nodes, done, [], nodes, [], [], {})
  {
  }

  lemma ScanStep(nodes: seq<ThreadNode>, done: set<ThreadNode>, seen: seq<ThreadNode>, node: ThreadNode,
                 after: seq<ThreadNode>, kept: seq<ThreadNode>, ids: seq<nat>, gone: set<ThreadNode>)
    requires Scanned(nodes, done, seen, [node] + after, kept, ids, gone)
    ensures if node in done
            then Scanned(nodes, done, seen + [node], after, kept, ids + [node.threadId], gone + {node})
            else Scanned(nodes, done, seen + [node], after, kept + [node], ids, gone)
  {
    assert (seen + [node])[..|seen|] == seen;
    Around(seen, node, after);
  }

  lemma ScanEnd(nodes: seq<ThreadNode>, done: set<ThreadNode>, seen: seq<ThreadNode>, kept: seq<ThreadNode>,
                ids: seq<nat>, gone: set<ThreadNode>)
    requires Scanned(nodes, done, seen, [], kept, ids, gone) && forall n :: n in done ==> n in nodes
    ensures kept == Without(nodes, done) && ids == IdsOf(nodes, done) && gone == done
  {
    assert seen == nodes;
  }

  function Among(nodes: seq<ThreadNode>, done: set<ThreadNode>): set<ThreadNode> {
    set n | n in nodes && n in done
  }

  lemma Around<T>(a: seq<T>, x: T, b: seq<T>)
    ensures (a + ([x] + b))[|a|] == x
    ensures (a + ([x] + b))[..|a|] == a
    ensures (a + ([x] + b))[|a| + 1..] == b
    ensures a + ([x] + b) == (a + [x]) + b
  {
  }

  function Fds(nodes: seq<ThreadNode>): (r: seq<int>)
    reads (set n | n in nodes)`clientSockFd
    ensures |r| == |nodes| && forall i :: 0 <= i < |nodes| ==> r[i] == nodes[i].clientSockFd
  {
    if nodes == [] then [] else Fds(nodes[..|nodes| - 1]) + [nodes[|nodes| - 1].clientSockFd]
  }

  /** The descriptors still open, in list order. */
  function OpenSockets(fds: seq<int>): (r: seq<int>) {
    if fds == [] then []
    else
      var last := fds[|fds| - 1];
      OpenSockets(fds[..|fds| - 1]) + (if last != -1 then [last] else [])
  }

  /** Every descriptor still open is there, once for each node that has it, in list order. */
  lemma {:induction false} OpenSocketsInOrder(a: seq<int>, fd: int, b: seq<int>)
    ensures OpenSockets(a + [fd] + b) == OpenSockets(a) + (if fd != -1 then [fd] else []) + OpenSockets(b)
    decreases |b|
  {
    var all := a + [fd] + b;
    if b == [] {
      assert all == a + [fd] && all[..|all| - 1] == a;
    } else {
      OpenSocketsInOrder(a, fd, b[..|b| - 1]);
      assert all[..|all| - 1] == a + [fd] + b[..|b| - 1];
    }
  }

  lemma OneSocketMore(fds: seq<int>, i: nat)
    requires i < |fds|
    ensures OpenSockets(fds[..i + 1]) == OpenSockets(fds[..i]) + (if fds[i] != -1 then [fds[i]] else [])
  {
    assert fds[..i + 1][..i] == fds[..i];
  }

  lemma NoSocketYet(fds: seq<int>)
    ensures OpenSockets(fds[..0]) == []
  {
  }

  ghost function At(nodes: seq<ThreadNode>, i: nat): ThreadNode? {
    if i < |nodes| then nodes[i] else null
  }

  lemma DropOne(nodes: seq<ThreadNode>, k: nat)
    requires Distinct(nodes) && k < |nodes|
    ensures var rest := nodes[..k] + nodes[k + 1..];
            && Distinct(rest)
            && (forall i :: 0 <= i < |rest| ==> rest[i] == nodes[if i < k then i else i + 1])
            && (forall i :: 0 <= i <= |rest| ==> At(rest, i) == At(nodes, if i < k then i else i + 1))
  {
  }

  class List {
    var first: ThreadNode?
    ghost var spine: seq<ThreadNode>  // the nodes in list order
    ghost var live: set<ThreadNode>   // allocated and not freed
    ghost var joined: seq<nat>        // thread ids given to pthread_join
    ghost var closed: seq<int>        // sockets closed

    ghost predicate Valid()
      reads this`first, this`spine, this`live, (set n | n in spine)`next
    {
      && first == At(spine, 0)
      && (forall i :: 0 <= i < |spine| ==> spine[i].next == At(spine, i + 1))
      && (forall i :: 0 <= i < |spine| ==> spine[i] in live)
      && Distinct(spine)
    }

    ghost function Completed(): set<ThreadNode>
      reads this, (set n | n in spine)`threadCompleted
    {
      set n | n in spine && n.threadCompleted
    }

    constructor ()
      ensures Valid() && spine == [] && live == {} && joined == [] && closed == []
    {
      first, spine, live, joined, closed := null, [], {}, [], [];
    }

    /** SLIST_INSERT_HEAD. */
    method InsertHead(node: ThreadNode)
      requires Valid() && node in live && node !in spine
      modifies this`first, this`spine, node`next
      ensures Valid() && spine == [node] + old(spine)
    {
      node.next := first;
      first := node;
      spine := [node] + spine;
    }

    /** SLIST_REMOVE_HEAD. */
    method RemoveHead()
      requires Valid() && spine != []
      modifies this`first, this`spine
      ensures Valid() && spine == old(spine)[1..]
    {
      assert first in live;
      first := first.next;
      spine := spine[1..];
    }

    /** SLIST_REMOVE_AFTER. */
    method RemoveAfter(elm: ThreadNode, ghost k: nat)
      requires Valid() && k + 1 < |spine| && spine[k] == elm
      modifies this`spine, elm`next
      ensures Valid() && spine == old(spine)[..k + 1] + old(spine)[k + 2..]
    {
      assert elm in live && elm.next == spine[k + 1] && elm.next in live;
      ghost var before := spine;
      elm.next := elm.next.next;
      spine := spine[..k + 1] + spine[k + 2..];
      DropOne(before, k + 1);
    }

    /** The search of SLIST_REMOVE: it ends at the predecessor, before the list does. */
    method FindBefore(elm: ThreadNode, ghost k: nat) returns (cur: ThreadNode)
      requires Valid() && 0 < k < |spine| && spine[k] == elm
      ensures cur == spine[k - 1]
    {
      cur := first;
      ghost var i := 0;
      while cur.next != elm
        invariant i < k && cur == spine[i]
        decreases k - i
      {
        assert cur in live;
        cur := cur.next;
        i := i + 1;
      }
      assert i + 1 == k;
    }

    /** SLIST_REMOVE. */
    method Remove(elm: ThreadNode, ghost k: nat)
      requires Valid() && k < |spine| && spine[k] == elm
      modifies this`first, this`spine, (set n | n in spine[..k])`next
      ensures Valid() && spine == old(spine)[..k] + old(spine)[k + 1..]
    {
      if first == elm {
        assert k == 0;
        RemoveHead();
      } else {
        var cur := FindBefore(elm, k);
        assert cur in spine[..k];
        RemoveAfter(cur, k - 1);
      }
    }

    /** free. */
    method Free(node: ThreadNode)
      requires Valid() && node in live && node !in spine
      modifies this`live
      ensures Valid() && live == old(live) - {node}
    {
      live := live - {node};
    }

    /** pthread_join of the thread with this id, which has exited. */
    method PthreadJoin(threadId: nat)
      modifies this`joined
      ensures joined == old(joined) + [threadId]
    {
      joined := joined + [threadId];
    }

    /** close_socket on a listed or a fresh descriptor. */
    method CloseSocket(fd: int)
      modifies this`closed
      ensures closed == old(closed) + [fd]
    {
      closed := closed + [fd];
    }

    /** one_communiction_thread_completed. */
    method OneThreadCompleted() returns (found: bool)
      requires Valid()
      ensures found <==> exists n :: n in spine && n.threadCompleted
    {
      var cur := first;
      ghost var i := 0;
      while cur != null
        invariant i <= |spine| && cur == At(spine, i)
        invariant forall j :: 0 <= j < i ==> !spine[j].threadCompleted
        decreases |spine| - i
      {
        assert cur in live;
        if cur.threadCompleted {
          return true;
        }
        cur := cur.next;
        i := i + 1;
      }
      return false;
    }

    lemma FirstOfSpine()
      requires Valid()
      ensures first == At(spine, 0)
    {
    }

    lemma SpineDistinct()
      requires Valid()
      ensures Distinct(spine)
    {
    }

    lemma FollowerAt(k: nat)
      requires Valid() && k < |spine|
      ensures spine[k] in live && spine[k].next == At(spine[k + 1..], 0)
    {
    }

    /** A completed node leaves the list: joined, unlinked, freed (aesdsocket_threads.c:81-84). */
    method Reap(node: ThreadNode, ghost k: nat)
      requires Valid() && k < |spine| && spine[k] == node
      modifies this`first, this`spine, this`live, this`joined, (set n | n in spine[..k])`next
      ensures Valid() && spine == old(spine)[..k] + old(spine)[k + 1..]
      ensures joined == old(joined) + [node.threadId]
      ensures live == old(live) - {node}
    {
      assert node in live;
      PthreadJoin(node.threadId);
      Remove(node, k);
      Free(node);
    }

    /** One round of the loop: the successor is saved before the node may go (queue.h:217-220). */
    method VisitNode(node: ThreadNode, ghost kept: seq<ThreadNode>, ghost rest: seq<ThreadNode>)
      returns (following: ThreadNode?)
      requires Valid() && spine == kept + ([node] + rest)
      modifies this`first, this`spine, this`live, this`joined, (set n | n in kept)`next
      ensures Valid() && following == At(rest, 0)
      ensures if node.threadCompleted
              then spine == kept + rest && joined == old(joined) + [node.threadId] && live == old(live) - {node}
              else spine == kept + [node] + rest && joined == old(joined) && live == old(live)
    {
      hide Valid;
      Around(kept, node, rest);
      FollowerAt(|kept|);
      assert node in live;
      following := node.next;
      if node.threadCompleted {
        Reap(node, |kept|);
      }
    }

    /**
      join_completed_client_threads: exactly the completed nodes leave the list, in list order
      their threads are joined, and their memory is freed; the others keep their order and fields.
     */
    method JoinCompletedClientThreads()
      requires Valid()
      modifies this`first, this`spine, this`live, this`joined, (set n | n in spine)`next
      ensures Valid()
      ensures spine == Without(old(spine), old(Completed()))
      ensures joined == old(joined) + IdsOf(old(spine), old(Completed()))
      ensures live == old(live) - old(Completed())
    {
      hide Without, IdsOf, Scanned, Valid;
      ghost var nodes, done := spine, Completed();
      ghost var seen, kept, rest, ids, gone := [], [], spine, [], {};
      ScanStart(nodes, done);
      FirstOfSpine();
      var cur := first;
      while cur != null
        invariant cur == At(rest, 0)
        invariant Valid() && spine == kept + rest
        invariant forall n :: n in kept || n in rest ==> n in nodes
        invariant forall n :: n in nodes ==> (n in done <==> n.threadCompleted)
        invariant Scanned(nodes, done, seen, rest, kept, ids, gone)
        invariant joined == old(joined) + ids
        invariant live == old(live) - gone
        decreases |rest|
      {
        ghost var node: ThreadNode := cur;
        ghost var after := rest[1..];
        assert rest == [node] + after;
        ScanStep(nodes, done, seen, node, after, kept, ids, gone);
        cur := VisitNode(cur, kept, after);
        if node in done {
          ids, gone := ids + [node.threadId], gone + {node};
        } else {
          kept := kept + [node];
        }
        seen, rest := seen + [node], after;
      }
      assert rest == [];
      ScanEnd(nodes, done, seen, kept, ids, gone);
    }

    /** close_client_communication_threads_sockets: every socket still open is closed, once. */
    method CloseClientSockets()
      requires Valid()
      modifies this`closed, (set n | n in spine)`clientSockFd
      ensures Valid()
      ensures forall n :: n in spine ==> n.clientSockFd == -1
      ensures closed == old(closed) + OpenSockets(old(Fds(spine)))
    {
      hide OpenSockets, Valid;
      ghost var fds := Fds(spine);
      var cur := first;
      ghost var i := 0;
      NoSocketYet(fds);
      FirstOfSpine();
      SpineDistinct();
      while cur != null
        invariant i <= |spine| && cur == At(spine, i) && Valid()
        invariant forall j :: 0 <= j < i ==> spine[j].clientSockFd == -1
        invariant forall j :: i <= j < |spine| ==> spine[j].clientSockFd == fds[j]
        invariant closed == old(closed) + OpenSockets(fds[..i])
        decreases |spine| - i
      {
        OneSocketMore(fds, i);
        FollowerAt(i);
        assert cur in live;
        if cur.clientSockFd != -1 {
          CloseSocket(cur.clientSockFd);
          cur.clientSockFd := -1;
        }
        cur := cur.next;
        assert cur == At(spine, i + 1);
        i := i + 1;
      }
      assert fds[..i] == fds;
    }

    /** create_client_communication_thread: a listed node with its real id, or nothing but a closed socket. */
    method CreateClientThread(sockFd: int, mallocSucceeds: bool, createSucceeds: bool, newId: nat)
      returns (ok: bool)
      requires Valid()
      modifies this`first, this`spine, this`live, this`closed
      ensures Valid() && joined == old(joined)
      ensures ok <==> mallocSucceeds && createSucceeds
      ensures ok ==> |spine| == |old(spine)| + 1 && spine[1..] == old(spine) && fresh(spine[0])
                     && spine[0].threadId == newId && spine[0].clientSockFd == sockFd && !spine[0].threadCompleted
      ensures ok ==> live == old(live) + {spine[0]} && closed == old(closed)
      ensures !ok ==> spine == old(spine) && live == old(live) && closed == old(closed) + [sockFd]
    {
      ok := false;
      if mallocSucceeds {
        var node := new ThreadNode(0, sockFd);
        live := live + {node};
        InsertHead(node);
        if createSucceeds {
          node.threadId := newId;
          ok := true;
        } else {
          RemoveHead();
          Free(node);
        }
      }
      if !ok {
        CloseSocket(sockFd);
      }
    }
  }
}
