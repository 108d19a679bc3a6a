/**
  The life of client threads as interleaved atomic steps: the accept loop and the stop, wake, join
  order of aesdsocket.c, the joiner thread of aesdsocket_threads.c, and the completion tail of the
  clients in aesdsocket_client.c. They share the list, its mutex and its condition variable; the
  flag process_running is written without the mutex. While they serve packets, clients share
  log_file_mutex. A connection stands for its client thread, its node and its accepted socket.
 */
module ThreadProtocol {
  import opened Bytes

  type Conn = nat

  /** The id pthread_create gives the thread of a connection; 0 is no thread's id. */
  function IdOf(c: Conn): nat {
    c + 1
  }

  datatype Owner = Nobody | MainThread | JoinerThread | ClientThread(c: Conn)

  datatype Node = Node(threadId: nat, completed: bool, socketOpen: bool)

  datatype MainPc =
    | LoopHead               // while process_running
    | AtAccept               // in accept
    | Accepted(c: Conn)      // wants the mutex
    | Allocating(c: Conn)    // has the mutex, no node yet
    | Inserted(c: Conn)      // node listed with thread id 0
    | Spawned(c: Conn)       // thread created, its id not stored
    | Stored                 // id stored, mutex still held
    | CreateFailed(c: Conn)  // nothing listed, mutex still held
    | ClosingFailed(c: Conn) // about to close the socket of a failed creation
    | Stopping               // stop_server_process
    | Waking                 // wants the mutex for the broadcast
    | Broadcasting
    | WakeUnlock
    | JoiningJoiner          // pthread_join of the joiner
    | Done

  datatype JoinerPc =
    | Start                    // wants the mutex
    | Outer                    // while process_running
    | InnerFlag                // inner loop: the flag
    | InnerScan                // inner loop: any thread completed?
    | Asleep(force: bool)      // in pthread_cond_wait
    | Reacquire(force: bool)   // woken, wants the mutex
    | AfterInner               // if process_running
    | Join(force: bool)        // join_completed_client_threads
    | Unlock
    | ForceStart               // wants the mutex
    | CloseAll
    | ForceOuter               // while the list is not empty
    | ForceInner               // inner loop: not empty and none completed?
    | ForceUnlock
    | Gone

  datatype ClientPc =
    | Serving                  // in recv
    | WantsLog(packets: nat)   // has received so many packets, wants log_file_mutex for the first
    | HoldsLog(packets: nat)   // serves the first, and may wait in send
    | WantsMutex               // has left the loop
    | Closing
    | Completing
    | Signalling
    | Unlocking
    | Leaving
    | Exited

  /** The receive loop, with the packets served in it. */
  predicate InLoop(p: ClientPc) {
    p.Serving? || p.WantsLog? || p.HoldsLog?
  }

  /** A receive completes a packet with each byte at most. */
  const MAX_PACKETS: nat := 1024

  datatype State = State(
    running: bool,
    owner: Owner,
    logOwner: Option<Conn>,        // of log_file_mutex
    list: seq<Conn>,
    nodes: map<Conn, Node>,        // allocated nodes
    main: MainPc,
    joiner: JoinerPc,
    clients: map<Conn, ClientPc>,  // created threads
    accepted: set<Conn>,
    joined: multiset<Conn>,        // pthread_join calls that returned
    freed: multiset<Conn>,         // free calls on nodes
    closed: multiset<Conn>,        // close calls on accepted sockets
    missed: set<Conn>,             // created after the joiner's only pass over the open sockets
    late: set<Conn>,               // created after the joiner had gone
    ended: set<Conn>,              // whose peer has ended the receive loop
    faulty: bool)                  // a freed node was touched, or a wrong thread joined

  const INIT := State(true, Nobody, None, [], map[], LoopHead, Start, map[], {},
                      multiset{}, multiset{}, multiset{}, {}, {}, {}, false)

  datatype Action =
    | StopFlag                      // the signal handler
    | SpuriousWake
    | Main(ok: bool, c: Conn)       // ok and c settle what accept, malloc and pthread_create return
    | Joiner
    | PeerEnds(c: Conn)                  // from outside: recv returns 0 or -1, or there is no memory for buffers
    | PeerSends(c: Conn, packets: nat)   // from outside: recv returns data that completes these packets
    | PeerTakes(c: Conn, ok: bool)       // from outside: the sends of a reply go through, or one fails
    | Client(c: Conn)                    // a step that needs nothing from outside

  // ---------------------------------------------------------------- the list

  /** The index of the first completed node in list order. */
  function FirstCompleted(list: seq<Conn>, nodes: map<Conn, Node>): (k: nat)
    ensures k <= |list|
    ensures k < |list| ==> list[k] in nodes && nodes[list[k]].completed
    ensures forall i :: 0 <= i < k ==> !(list[i] in nodes && nodes[list[i]].completed)
  {
    if list == [] || (list[0] in nodes && nodes[list[0]].completed) then 0
    else 1 + FirstCompleted(list[1..], nodes)
  }

  function FirstOpen(list: seq<Conn>, nodes: map<Conn, Node>): (k: nat)
    ensures k <= |list|
    ensures k < |list| ==> list[k] in nodes && nodes[list[k]].socketOpen
    ensures forall i :: 0 <= i < k ==> !(list[i] in nodes && nodes[list[i]].socketOpen)
  {
    if list == [] || (list[0] in nodes && nodes[list[0]].socketOpen) then 0
    else 1 + FirstOpen(list[1..], nodes)
  }

  predicate AnyCompleted(s: State) {
    FirstCompleted(s.list, s.nodes) < |s.list|
  }

  /** The joiner closes the sockets it finds listed once, before its second loop. */
  predicate PastClosePass(j: JoinerPc) {
    match j
    case Asleep(force) => force
    case Reacquire(force) => force
    case Join(force) => force
    case ForceOuter => true
    case ForceInner => true
    case ForceUnlock => true
    case Gone => true
    case _ => false
  }

  // ---------------------------------------------------------------- steps

  predicate MainEnabled(s: State, ok: bool, c: Conn) {
    match s.main
    case AtAccept => ok ==> c !in s.accepted
    case Accepted(_) => s.owner.Nobody?
    case Waking => s.owner.Nobody?
    case JoiningJoiner => s.joiner.Gone?
    case Done => false
    case _ => true
  }

  /** The thread a join of the first completed node waits for. */
  function JoinTarget(s: State): nat
    requires AnyCompleted(s)
  {
    s.nodes[s.list[FirstCompleted(s.list, s.nodes)]].threadId
  }

  predicate IsThread(s: State, id: nat) {
    id > 0 && id - 1 in s.clients
  }

  predicate JoinerEnabled(s: State) {
    match s.joiner
    case Start => s.owner.Nobody?
    case Reacquire(_) => s.owner.Nobody?
    case ForceStart => s.owner.Nobody?
    case Asleep(_) => false
    case Gone => false
    case Join(_) =>
      AnyCompleted(s) && IsThread(s, JoinTarget(s)) ==> s.clients[JoinTarget(s) - 1].Exited?
    case _ => true
  }

  predicate ClientEnabled(s: State, c: Conn) {
    c in s.clients &&
    match s.clients[c]
    case Serving => c in s.nodes && !s.nodes[c].socketOpen
    case WantsLog(_) => s.logOwner.None?
    case HoldsLog(_) => c in s.nodes && !s.nodes[c].socketOpen
    case WantsMutex => s.owner.Nobody?
    case Exited => false
    case _ => true
  }

  predicate Enabled(s: State, a: Action) {
    match a
    case StopFlag => true
    case SpuriousWake => s.joiner.Asleep?
    case Main(ok, c) => MainEnabled(s, ok, c)
    case Joiner => JoinerEnabled(s)
    case PeerEnds(c) => c in s.clients && s.clients[c].Serving?
    case PeerSends(c, packets) => c in s.clients && s.clients[c].Serving? && packets <= MAX_PACKETS
    case PeerTakes(c, _) => c in s.clients && s.clients[c].HoldsLog?
    case Client(c) => ClientEnabled(s, c)
  }

  /** Both signal and broadcast: the joiner is the only thread that ever waits. */
  function Wake(j: JoinerPc): JoinerPc {
    if j.Asleep? then Reacquire(j.force) else j
  }

  datatype LockUse = Keep | Acquire | Release

  function OwnerAfter(use: LockUse, me: Owner, owner: Owner): Owner {
    match use
    case Keep => owner
    case Acquire => me
    case Release => Nobody
  }

  /** Where main goes next, and what it does to the mutex on the way. */
  function MainMove(m: MainPc, running: bool, ok: bool, c: Conn): (MainPc, LockUse) {
    match m
    case LoopHead => (if running then AtAccept else Stopping, Keep)
    case AtAccept => (if ok then Accepted(c) else Stopping, Keep)
    case Accepted(d) => (Allocating(d), Acquire)
    case Allocating(d) => (if ok then Inserted(d) else CreateFailed(d), Keep)
    case Inserted(d) => (if ok then Spawned(d) else CreateFailed(d), Keep)
    case Spawned(_) => (Stored, Keep)
    case Stored => (LoopHead, Release)
    case CreateFailed(d) => (ClosingFailed(d), Release)
    case ClosingFailed(_) => (Stopping, Keep)
    case Stopping => (Waking, Keep)
    case Waking => (Broadcasting, Acquire)
    case Broadcasting => (WakeUnlock, Keep)
    case WakeUnlock => (JoiningJoiner, Release)
    case JoiningJoiner => (MainPc.Done, Keep)
    case Done => (MainPc.Done, Keep)
  }

  function MainStep(s: State, ok: bool, c: Conn): State {
    var (main', use) := MainMove(s.main, s.running, ok, c);
    var t := s.(main := main', owner := OwnerAfter(use, MainThread, s.owner));
    match s.main
    case AtAccept => if ok then t.(accepted := s.accepted + {c}) else t
    case Allocating(d) =>
      if ok then t.(list := [d] + s.list, nodes := s.nodes[d := Node(0, false, true)]) else t
    case Inserted(d) =>
      if ok then
        t.(clients := s.clients[d := Serving],
           missed := if PastClosePass(s.joiner) then s.missed + {d} else s.missed,
           late := if s.joiner.Gone? then s.late + {d} else s.late)
      else if s.list == [] then t.(faulty := true)
      else t.(list := s.list[1..], nodes := s.nodes - {d}, freed := s.freed + multiset{d})
    case Spawned(d) =>
      if d in s.nodes then t.(nodes := s.nodes[d := s.nodes[d].(threadId := IdOf(d))]) else t.(faulty := true)
    case ClosingFailed(d) => t.(closed := s.closed + multiset{d})
    case Stopping => t.(running := false)
    case Broadcasting => t.(joiner := Wake(s.joiner))
    case _ => t
  }

  /** Where the joiner goes next outside its two list loops, and what it does to the mutex. */
  function JoinerMove(j: JoinerPc, running: bool, anyCompleted: bool, empty: bool): (JoinerPc, LockUse) {
    match j
    case Start => (Outer, Acquire)
    case Outer => (if running then InnerFlag else Unlock, Keep)
    case InnerFlag => (if running then InnerScan else AfterInner, Keep)
    case InnerScan => if anyCompleted then (AfterInner, Keep) else (Asleep(false), Release)
    case Asleep(force) => (Asleep(force), Keep)
    case Reacquire(force) => (if force then ForceInner else InnerFlag, Acquire)
    case AfterInner => (if running then Join(false) else Outer, Keep)
    case Join(force) => (if force then ForceOuter else Outer, Keep)
    case Unlock => (ForceStart, Release)
    case ForceStart => (CloseAll, Acquire)
    case CloseAll => (ForceOuter, Keep)
    case ForceOuter => (if empty then ForceUnlock else ForceInner, Keep)
    case ForceInner => if !empty && !anyCompleted then (Asleep(true), Release) else (Join(true), Keep)
    case ForceUnlock => (Gone, Release)
    case Gone => (Gone, Keep)
  }

  /** One node less: its thread joined, its link and memory gone. */
  function JoinFirstCompleted(s: State): State
    requires AnyCompleted(s)
  {
    if !IsThread(s, JoinTarget(s)) then s.(faulty := true)
    else
      var k := FirstCompleted(s.list, s.nodes);
      var c := s.list[k];
      s.(joined := s.joined + multiset{JoinTarget(s) - 1},
         faulty := s.faulty || JoinTarget(s) != IdOf(c),
         list := s.list[..k] + s.list[k + 1..],
         nodes := s.nodes - {c},
         freed := s.freed + multiset{c})
  }

  function CloseFirstOpen(s: State): State
    requires FirstOpen(s.list, s.nodes) < |s.list|
  {
    var c := s.list[FirstOpen(s.list, s.nodes)];
    s.(closed := s.closed + multiset{c}, nodes := s.nodes[c := s.nodes[c].(socketOpen := false)])
  }

  function JoinerStep(s: State): State {
    if s.joiner.Join? && AnyCompleted(s) then JoinFirstCompleted(s)
    else if s.joiner.CloseAll? && FirstOpen(s.list, s.nodes) < |s.list| then CloseFirstOpen(s)
    else
      var (joiner', use) := JoinerMove(s.joiner, s.running, AnyCompleted(s), s.list == []);
      s.(joiner := joiner', owner := OwnerAfter(use, JoinerThread, s.owner))
  }

  /** Where a client goes next by itself. */
  function ClientMove(p: ClientPc): ClientPc {
    match p
    case Serving => WantsMutex
    case WantsLog(packets) => HoldsLog(packets)
    case HoldsLog(_) => WantsMutex
    case WantsMutex => Closing
    case Closing => Completing
    case Completing => Signalling
    case Signalling => Unlocking
    case Unlocking => Leaving
    case Leaving => Exited
    case Exited => Exited
  }

  function ClientStep(s: State, c: Conn): State
    requires c in s.clients
  {
    var t := s.(clients := s.clients[c := ClientMove(s.clients[c])]);
    match s.clients[c]
    case WantsLog(_) => t.(logOwner := Some(c))
    case HoldsLog(_) => t.(logOwner := None)
    case WantsMutex => t.(owner := ClientThread(c))
    case Closing =>
      if c !in s.nodes then s.(faulty := true)
      else if !s.nodes[c].socketOpen then t
      else t.(closed := s.closed + multiset{c}, nodes := s.nodes[c := s.nodes[c].(socketOpen := false)])
    case Completing =>
      if c !in s.nodes then s.(faulty := true)
      else t.(nodes := s.nodes[c := s.nodes[c].(completed := true)])
    case Signalling => t.(joiner := Wake(s.joiner))
    case Unlocking => t.(owner := Nobody)
    case _ => t
  }

  /** The peer, or what it has sent, ends the loop. */
  function LeaveLoop(s: State, c: Conn): State {
    s.(clients := s.clients[c := WantsMutex], ended := s.ended + {c})
  }

  /** What has been received is served packet by packet; behind the last the flag is looked at. */
  function PeerSent(s: State, c: Conn, packets: nat): State {
    if packets > 0 then s.(clients := s.clients[c := WantsLog(packets)])
    else if s.running then s
    else LeaveLoop(s, c)
  }

  function PeerTook(s: State, c: Conn, ok: bool): State
    requires c in s.clients && s.clients[c].HoldsLog?
  {
    var t := s.(logOwner := None);
    if !ok then LeaveLoop(t, c)
    else if s.clients[c].packets > 1 then t.(clients := s.clients[c := WantsLog(s.clients[c].packets - 1)])
    else if s.running then t.(clients := s.clients[c := Serving])
    else LeaveLoop(t, c)
  }

  function Next(s: State, a: Action): State
    requires Enabled(s, a)
  {
    match a
    case StopFlag => s.(running := false)
    case SpuriousWake => s.(joiner := Wake(s.joiner))
    case Main(ok, c) => MainStep(s, ok, c)
    case Joiner => JoinerStep(s)
    case PeerEnds(c) => LeaveLoop(s, c)
    case PeerSends(c, packets) => PeerSent(s, c, packets)
    case PeerTakes(c, ok) => PeerTook(s, c, ok)
    case Client(c) => ClientStep(s, c)
  }

  /** The state after a run; actions that are not enabled change nothing. */
  function Run(s: State, actions: seq<Action>): State
    decreases |actions|
  {
    if actions == [] then s
    else Run(if Enabled(s, actions[0]) then Next(s, actions[0]) else s, actions[1..])
  }

  // ---------------------------------------------------------------- the invariant

  predicate MainHolds(m: MainPc) {
    m.Allocating? || m.Inserted? || m.Spawned? || m.Stored? || m.CreateFailed? || m.Broadcasting? || m.WakeUnlock?
  }

  predicate JoinerHolds(j: JoinerPc) {
    !(j.Start? || j.Asleep? || j.Reacquire? || j.ForceStart? || j.Gone?)
  }

  predicate ClientHolds(p: ClientPc) {
    p.Closing? || p.Completing? || p.Signalling? || p.Unlocking?
  }

  /** The mutex belongs to exactly the thread that is inside a critical section. */
  ghost predicate MutexRule(owner: Owner, main: MainPc, joiner: JoinerPc, clients: map<Conn, ClientPc>) {
    && (owner.MainThread? <==> MainHolds(main))
    && (owner.JoinerThread? <==> JoinerHolds(joiner))
    && (forall c :: owner == ClientThread(c) <==> c in clients && ClientHolds(clients[c]))
  }

  ghost predicate LogRule(logOwner: Option<Conn>, clients: map<Conn, ClientPc>) {
    forall c :: logOwner == Some(c) <==> c in clients && clients[c].HoldsLog?
  }

  /** The connection main is working on, before its thread exists. */
  function InCreation(m: MainPc): set<Conn> {
    match m
    case Accepted(c) => {c}
    case Allocating(c) => {c}
    case Inserted(c) => {c}
    case CreateFailed(c) => {c}
    case ClosingFailed(c) => {c}
    case _ => {}
  }

  function ListedUncreated(m: MainPc): set<Conn> {
    if m.Inserted? then {m.c} else {}
  }

  /** The list holds the nodes, and those belong to the created threads not yet joined. */
  ghost predicate ListRule(list: seq<Conn>, nodes: map<Conn, Node>, clients: map<Conn, ClientPc>,
                          joined: multiset<Conn>, main: MainPc, accepted: set<Conn>) {
    && Distinct(list)
    && (forall c :: c in list <==> c in nodes)
    && (forall c :: c in nodes <==> (c in clients && joined[c] == 0) || c in ListedUncreated(main))
    && (forall c :: c in clients || c in InCreation(main) ==> c in accepted)
    && (forall c :: c in InCreation(main) ==> c !in clients)
    && (main.Inserted? || main.Spawned? ==> list != [] && list[0] == main.c)
    && (main.Spawned? ==> main.c in clients && (InLoop(clients[main.c]) || clients[main.c].WantsMutex?))
  }

  predicate Signalled(p: ClientPc) {
    p.Signalling? || p.Unlocking? || p.Leaving? || p.Exited?
  }

  /** Each listed node has its thread's id, except while main is still creating it. */
  ghost predicate NodeRule(nodes: map<Conn, Node>, clients: map<Conn, ClientPc>, main: MainPc) {
    && (forall c :: c in nodes ==>
          nodes[c].threadId == if main == Inserted(c) || main == Spawned(c) then 0 else IdOf(c))
    && (forall c :: c in nodes ==> (nodes[c].completed <==> c in clients && Signalled(clients[c])))
    && (main.Inserted? && main.c in nodes ==> nodes[main.c].socketOpen)
    && (forall c :: c in nodes && c in clients && nodes[c].socketOpen ==>
          InLoop(clients[c]) || clients[c].WantsMutex? || clients[c].Closing?)
  }

  /** Threads are joined once, after they exited. Nodes are freed with that, or when the creation fails. */
  ghost predicate JoinedRule(faulty: bool, joined: multiset<Conn>, freed: multiset<Conn>,
                             clients: map<Conn, ClientPc>, main: MainPc, accepted: set<Conn>) {
    && !faulty
    && (forall c :: joined[c] <= 1 && freed[c] <= 1)
    && (forall c :: joined[c] == 1 ==> c in clients && clients[c].Exited?)
    && (forall c :: c in clients ==> freed[c] == joined[c])
    && (forall c :: freed[c] == 1 && c !in clients ==>
          c in accepted && (c in InCreation(main) ==> main.CreateFailed? || main.ClosingFailed?))
  }

  /** How often the socket of a connection has been closed. */
  ghost predicate SocketRule(closed: multiset<Conn>, accepted: set<Conn>, main: MainPc, nodes: map<Conn, Node>) {
    forall c :: closed[c] ==
      if c !in accepted || c in InCreation(main) then 0
      else if c in nodes && nodes[c].socketOpen then 0
      else 1
  }

  predicate PastBroadcast(m: MainPc) {
    m.WakeUnlock? || m.JoiningJoiner? || m.Done?
  }

  predicate Forcing(j: JoinerPc) {
    j.Unlock? || j.ForceStart? || j.CloseAll? || PastClosePass(j)
  }

  /** The joiner sleeps on a completed node only until the signal that is under way arrives. */
  ghost predicate WakeRule(running: bool, main: MainPc, joiner: JoinerPc, list: seq<Conn>,
                          nodes: map<Conn, Node>, clients: map<Conn, ClientPc>) {
    && (main.Waking? || main.Broadcasting? || PastBroadcast(main) || Forcing(joiner) ==> !running)
    && (PastBroadcast(main) ==> joiner != Asleep(false) && !joiner.InnerScan?)
    && (joiner.Asleep? ==> forall c :: c in nodes && nodes[c].completed ==> c in clients && clients[c].Signalling?)
    && (joiner == Asleep(true) ==> |list| > |ListedUncreated(main)|)
    && (main.Done? ==> joiner.Gone?)
  }

  /** After the joiner has gone, the list holds exactly what was created since. */
  ghost predicate LateRule(late: set<Conn>, clients: map<Conn, ClientPc>, joined: multiset<Conn>,
                          joiner: JoinerPc, list: seq<Conn>, nodes: map<Conn, Node>, main: MainPc) {
    && (forall c :: c in late ==> c in clients && joined[c] == 0)
    && (!joiner.Gone? ==> late == {})
    && (joiner.ForceUnlock? ==> list == [])
    && (joiner.Gone? ==> forall c :: c in nodes <==> c in late || c in ListedUncreated(main))
  }

  /** Once the close pass is over, the open sockets of clients are those of the clients it missed. */
  ghost predicate MissedRule(missed: set<Conn>, late: set<Conn>, ended: set<Conn>, clients: map<Conn, ClientPc>,
                            nodes: map<Conn, Node>, joiner: JoinerPc) {
    && late <= missed
    && (!PastClosePass(joiner) ==> missed == {})
    && (PastClosePass(joiner) ==> forall c :: c in clients && c in nodes && nodes[c].socketOpen ==> c in missed)
    && (forall c :: c in missed ==> c in clients)
    && (forall c :: c in missed && InLoop(clients[c]) ==> c in nodes && nodes[c].socketOpen)
    && (forall c :: c in ended ==> c in clients && !InLoop(clients[c]))
    && (forall c :: c in missed && !InLoop(clients[c]) ==> c in ended)
  }

  ghost predicate MutexInv(s: State) {
    MutexRule(s.owner, s.main, s.joiner, s.clients)
  }

  ghost predicate LogInv(s: State) {
    LogRule(s.logOwner, s.clients)
  }

  ghost predicate ListInv(s: State) {
    ListRule(s.list, s.nodes, s.clients, s.joined, s.main, s.accepted)
  }

  ghost predicate NodeInv(s: State) {
    NodeRule(s.nodes, s.clients, s.main)
  }

  ghost predicate JoinedInv(s: State) {
    JoinedRule(s.faulty, s.joined, s.freed, s.clients, s.main, s.accepted)
  }

  ghost predicate SocketInv(s: State) {
    SocketRule(s.closed, s.accepted, s.main, s.nodes)
  }

  ghost predicate WakeInv(s: State) {
    WakeRule(s.running, s.main, s.joiner, s.list, s.nodes, s.clients)
  }

  ghost predicate LateInv(s: State) {
    LateRule(s.late, s.clients, s.joined, s.joiner, s.list, s.nodes, s.main)
  }

  ghost predicate MissedInv(s: State) {
    MissedRule(s.missed, s.late, s.ended, s.clients, s.nodes, s.joiner)
  }

  ghost predicate Inv(s: State) {
    && MutexInv(s) && LogInv(s) && ListInv(s) && NodeInv(s) && JoinedInv(s) && SocketInv(s)
    && WakeInv(s) && LateInv(s) && MissedInv(s)
  }
}
