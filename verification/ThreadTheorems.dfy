/** The guarantees of the thread protocol: over all runs, and at shutdown. */
module ThreadTheorems {
  import opened Bytes
  import opened ThreadProtocol
  import opened ThreadProofs

  /** Whenever nobody holds the mutex, the list holds exactly the created and unjoined clients, once each. */
  lemma ListHoldsTheUnjoined(actions: seq<Action>)
    requires Run(INIT, actions).owner.Nobody?
    ensures var s := Run(INIT, actions);
            Distinct(s.list) && forall c :: c in s.list <==> c in s.clients && s.joined[c] == 0
  {
    hide LogRule, NodeRule, SocketRule, WakeRule, LateRule, MissedRule, Run, MainMove;
    InitInv();
    RunKeepsInv(INIT, actions);
  }

  /**
    In every run: a node seen as completed has its own thread's id; a thread is joined at most
    once, after it exited, and its node freed exactly as often; no node is freed twice, or while
    listed, and no freed node is touched.
   */
  lemma ThreadsJoinedOnce(actions: seq<Action>, c: Conn)
    ensures var s := Run(INIT, actions);
            && (c in s.nodes && s.nodes[c].completed ==> s.nodes[c].threadId == IdOf(c) != 0)
            && s.joined[c] <= s.freed[c] <= 1
            && (c in s.clients ==> s.freed[c] == s.joined[c])
            && (c in s.nodes ==> s.freed[c] == 0)
            && (s.joined[c] == 1 ==> c in s.clients && s.clients[c].Exited? && c !in s.nodes)
            && !s.faulty
  {
    hide LogRule, MutexRule, SocketRule, WakeRule, LateRule, MissedRule, Run;
    InitInv();
    RunKeepsInv(INIT, actions);
  }

  /** In every run an accepted socket is closed at most once, and exactly once by the end of its story. */
  lemma SocketsClosedOnce(actions: seq<Action>, c: Conn)
    ensures var s := Run(INIT, actions);
            && s.closed[c] <= 1
            && (c in s.accepted && s.joined[c] == 1 ==> s.closed[c] == 1)
            && (c in s.accepted && c !in s.clients && c !in InCreation(s.main) ==> s.closed[c] == 1)
  {
    hide LogRule, MutexRule, WakeRule, LateRule, MissedRule, Run;
    InitInv();
    RunKeepsInv(INIT, actions);
  }

  /** pthread_join under the mutex waits only for a thread that will not ask for the mutex again. */
  lemma JoinNeedsNoMutex(actions: seq<Action>)
    requires Run(INIT, actions).joiner.Join? && AnyCompleted(Run(INIT, actions))
    ensures var s := Run(INIT, actions);
            var c := s.list[FirstCompleted(s.list, s.nodes)];
            c in s.clients && JoinTarget(s) == IdOf(c) && (s.clients[c].Leaving? || s.clients[c].Exited?)
  {
    hide LogRule, JoinedRule, SocketRule, WakeRule, LateRule, MissedRule, Run;
    InitInv();
    RunKeepsInv(INIT, actions);
  }

  /**
    No wakeup is lost: the joiner is never left in its first wait after the broadcast, and sleeps
    on a completed node only while that node's thread is about to signal.
   */
  lemma NoLostWakeup(actions: seq<Action>, c: Conn)
    ensures var s := Run(INIT, actions);
            && (PastBroadcast(s.main) ==> !s.running && s.joiner != Asleep(false))
            && (s.joiner.Asleep? && c in s.nodes && s.nodes[c].completed ==>
                  s.owner == ClientThread(c) && c in s.clients && s.clients[c].Signalling?)
  {
    hide LogRule, ListRule, JoinedRule, SocketRule, LateRule, MissedRule, Run;
    InitInv();
    RunKeepsInv(INIT, actions);
  }

  /** When the server is done, all threads were joined exactly if none was created after the joiner had gone. */
  lemma AllJoinedIffNoneLate(actions: seq<Action>)
    requires Run(INIT, actions).main.Done?
    ensures var s := Run(INIT, actions);
            (forall c :: c in s.clients ==> s.joined[c] == 1) <==> s.late == {}
  {
    hide LogRule, NodeRule, SocketRule, MissedRule, Run;
    InitInv();
    RunKeepsInv(INIT, actions);
    var s := Run(INIT, actions);
    if s.late != {} {
      var c :| c in s.late;
      assert s.joined[c] == 0;
    }
  }

  // ---------------------------------------------------------------- one call of the join loop

  /** The connections whose nodes are not completed, in list order. */
  function Incomplete(list: seq<Conn>, nodes: map<Conn, Node>): seq<Conn> {
    if list == [] then []
    else (if list[0] in nodes && nodes[list[0]].completed then [] else [list[0]]) + Incomplete(list[1..], nodes)
  }

  lemma {:induction false} IncompleteWithout(list: seq<Conn>, nodes: map<Conn, Node>, k: nat, nodes': map<Conn, Node>)
    requires Distinct(list) && k < |list| && list[k] in nodes && nodes[list[k]].completed
    requires nodes' == nodes - {list[k]}
    ensures Incomplete(list[..k] + list[k + 1..], nodes') == Incomplete(list, nodes)
  {
    var rest := list[..k] + list[k + 1..];
    if k == 0 {
      assert rest == list[1..];
      IncompleteSame(rest, nodes, nodes');
    } else {
      assert rest[0] == list[0] && rest[1..] == list[1..][..k - 1] + list[1..][k..];
      IncompleteWithout(list[1..], nodes, k - 1, nodes');
    }
  }

  lemma {:induction false} IncompleteSame(list: seq<Conn>, nodes: map<Conn, Node>, nodes': map<Conn, Node>)
    requires forall c :: c in list ==> (c in nodes <==> c in nodes') && (c in nodes ==> nodes[c] == nodes'[c])
    ensures Incomplete(list, nodes') == Incomplete(list, nodes)
  {
    if list == [] {
    } else {
      IncompleteSame(list[1..], nodes, nodes');
    }
  }

  lemma {:induction false} AllIncomplete(list: seq<Conn>, nodes: map<Conn, Node>)
    requires FirstCompleted(list, nodes) == |list|
    ensures Incomplete(list, nodes) == list
  {
    if list == [] {
    } else {
      AllIncomplete(list[1..], nodes);
    }
  }

  /** The joiner's steps of one call of join_completed_client_threads. */
  function JoinAll(s: State): State
    decreases |s.list|
  {
    if s.joiner.Join? && AnyCompleted(s) && IsThread(s, JoinTarget(s)) then JoinAll(JoinerStep(s)) else s
  }

  ghost predicate CompletedHaveExited(s: State) {
    forall c :: c in s.nodes && s.nodes[c].completed ==> c in s.clients && s.clients[c].Exited?
  }

  lemma JoinMayProceed(s: State)
    requires MutexInv(s) && ListInv(s) && NodeInv(s) && CompletedHaveExited(s)
    requires s.joiner.Join? && AnyCompleted(s)
    ensures JoinerEnabled(s) && IsThread(s, JoinTarget(s))
    ensures JoinAll(s) == JoinAll(JoinFirstCompleted(s))
    ensures Distinct(s.list)
  {
    hide FirstCompleted;
  }

  /** The call joins exactly the completed threads, and leaves the others' nodes in their order. */
  lemma {:induction false} JoinLoopFilters(s: State)
    requires Inv(s) && s.joiner.Join? && CompletedHaveExited(s)
    ensures var s' := JoinAll(s);
            && Inv(s') && s'.list == Incomplete(s.list, s.nodes)
            && s'.clients == s.clients && s'.closed == s.closed
            && forall c :: s'.joined[c] == s.joined[c] + if c in s.nodes && s.nodes[c].completed then 1 else 0
    decreases |s.list|
  {
    hide FirstCompleted, JoinFirstCompleted, JoinerEnabled, JoinerStep, Incomplete;
    hide MutexRule, LogRule, ListRule, NodeRule, JoinedRule, SocketRule, WakeRule, LateRule, MissedRule;
    if AnyCompleted(s) {
      JoinMayProceed(s);
      JoinOneEffect(s);
      JoinOneKeepsInv(s);
      IncompleteWithout(s.list, s.nodes, FirstCompleted(s.list, s.nodes), JoinFirstCompleted(s).nodes);
      JoinLoopFilters(JoinFirstCompleted(s));
    } else {
      AllIncomplete(s.list, s.nodes);
      NoneCompleted(s);
    }
  }

  // ---------------------------------------------------------------- shutdown ends

  function ClientWeight(p: ClientPc): nat {
    match p
    case Serving => 2 * MAX_PACKETS + 10
    case WantsLog(packets) => 2 * packets + 9
    case HoldsLog(packets) => 2 * packets + 8
    case WantsMutex => 7
    case Closing => 6
    case Completing => 5
    case Signalling => 4
    case Unlocking => 3
    case Leaving => 2
    case Exited => 1
  }

  function NodeWeight(nodes: map<Conn, Node>, clients: map<Conn, ClientPc>, c: Conn): nat {
    1 + (if c in nodes && nodes[c].socketOpen then 1 else 0) + (if c in clients then ClientWeight(clients[c]) else 0)
  }

  function ListWeight(list: seq<Conn>, nodes: map<Conn, Node>, clients: map<Conn, ClientPc>): nat {
    if list == [] then 0 else NodeWeight(nodes, clients, list[0]) + ListWeight(list[1..], nodes, clients)
  }

  /** How far the joiner is from sleeping or going, while the list stays as it is. */
  function JoinerRank(j: JoinerPc, anyCompleted: bool, empty: bool): nat {
    match j
    case Gone => 0
    case ForceUnlock => 1
    case Asleep(_) => 0
    case ForceOuter => if empty then 2 else if anyCompleted then 7 else 4
    case ForceInner => if anyCompleted || empty then 6 else 3
    case Join(force) => if force then 5 else 13
    case Reacquire(force) => if force then 8 else 15
    case CloseAll => 9
    case ForceStart => 10
    case Unlock => 11
    case Outer => 12
    case Start => 13
    case AfterInner => 13
    case InnerFlag => 14
    case InnerScan => 20
  }

  function MainRank(m: MainPc): nat {
    if m.WakeUnlock? then 2 else if m.JoiningJoiner? then 1 else 0
  }

  function Rank(s: State): nat {
    20 * ListWeight(s.list, s.nodes, s.clients) + JoinerRank(s.joiner, AnyCompleted(s), s.list == []) + MainRank(s.main)
  }

  /** A step towards the end: not a signal to the process, and not a spurious wakeup. */
  predicate IsProgress(a: Action) {
    !a.StopFlag? && !a.SpuriousWake?
  }

  /** A step the threads take by themselves: nothing from outside the server is needed for it. */
  predicate IsThreadStep(a: Action) {
    IsProgress(a) && !a.PeerEnds? && !a.PeerSends? && !a.PeerTakes?
  }

  lemma {:induction false} WeightSame(list: seq<Conn>, nodes: map<Conn, Node>, clients: map<Conn, ClientPc>,
                                      nodes': map<Conn, Node>, clients': map<Conn, ClientPc>)
    requires forall d :: d in list ==> NodeWeight(nodes', clients', d) <= NodeWeight(nodes, clients, d)
    ensures ListWeight(list, nodes', clients') <= ListWeight(list, nodes, clients)
  {
    if list == [] {
    } else {
      WeightSame(list[1..], nodes, clients, nodes', clients');
    }
  }

  lemma {:induction false} WeightDrops(list: seq<Conn>, nodes: map<Conn, Node>, clients: map<Conn, ClientPc>,
                                       nodes': map<Conn, Node>, clients': map<Conn, ClientPc>, c: Conn)
    requires forall d :: d in list ==> NodeWeight(nodes', clients', d) <= NodeWeight(nodes, clients, d)
    requires c in list && NodeWeight(nodes', clients', c) < NodeWeight(nodes, clients, c)
    ensures ListWeight(list, nodes', clients') < ListWeight(list, nodes, clients)
  {
    if list[0] == c {
      WeightSame(list[1..], nodes, clients, nodes', clients');
    } else {
      WeightDrops(list[1..], nodes, clients, nodes', clients', c);
    }
  }

  lemma {:induction false} WeightWithout(list: seq<Conn>, k: nat, nodes: map<Conn, Node>, clients: map<Conn, ClientPc>)
    requires k < |list|
    ensures ListWeight(list[..k] + list[k + 1..], nodes, clients) < ListWeight(list, nodes, clients)
  {
    var rest := list[..k] + list[k + 1..];
    if k == 0 {
      assert rest == list[1..];
    } else {
      WeightWithout(list[1..], k - 1, nodes, clients);
      assert rest[1..] == list[1..][..k - 1] + list[1..][k..];
    }
  }

  lemma RankBounds(s: State)
    ensures JoinerRank(s.joiner, AnyCompleted(s), s.list == []) <= if s.joiner.Join? then 13 else 20
  {
  }

  lemma ClientLowersRank(s: State, c: Conn)
    requires Inv(s) && PastBroadcast(s.main) && ClientEnabled(s, c)
    ensures Rank(ClientStep(s, c)) < Rank(s)
  {
    hide MutexRule, LogRule, ListRule, NodeRule, JoinedRule, SocketRule, LateRule, MissedRule, Rank;
    var s' := ClientStep(s, c);
    ClientInList(s, c);
    ClientStepEffect(s, c);
    WeightDrops(s.list, s.nodes, s.clients, s'.nodes, s'.clients, c);
    JoinerRankGap(s, s');
  }

  /** A step of a client changes its own place and node, and may wake the joiner. */
  lemma ClientStepFrame(s: State, c: Conn)
    requires ClientEnabled(s, c) && c in s.nodes
    ensures var s' := ClientStep(s, c);
            && s'.list == s.list && s'.main == s.main
            && s'.joiner == (if s.clients[c].Signalling? then Wake(s.joiner) else s.joiner)
            && s'.clients == s.clients[c := ClientMove(s.clients[c])]
            && c in s'.nodes && s'.nodes == s.nodes[c := s'.nodes[c]]
            && (s'.nodes[c].socketOpen ==> s.nodes[c].socketOpen)
  {
    hide Wake, ClientMove;
    assert s.nodes[c := s.nodes[c]] == s.nodes;
  }

  lemma ClientMoveWeight(p: ClientPc)
    requires !p.Exited?
    ensures ClientWeight(ClientMove(p)) < ClientWeight(p)
  {
  }

  lemma ClientStepEffect(s: State, c: Conn)
    requires ClientEnabled(s, c) && c in s.nodes
    ensures var s' := ClientStep(s, c);
            && s'.list == s.list && s'.main == s.main
            && s'.joiner == (if s.clients[c].Signalling? then Wake(s.joiner) else s.joiner)
            && NodeWeight(s'.nodes, s'.clients, c) < NodeWeight(s.nodes, s.clients, c)
            && forall d :: d != c ==> NodeWeight(s'.nodes, s'.clients, d) == NodeWeight(s.nodes, s.clients, d)
  {
    hide ClientStep, ClientWeight, ClientMove, Wake;
    ClientStepFrame(s, c);
    ClientMoveWeight(s.clients[c]);
  }

  lemma JoinerRankGap(s: State, s': State)
    requires s'.list == s.list && s'.main == s.main
    requires s'.joiner == s.joiner || s'.joiner == Wake(s.joiner)
    requires PastBroadcast(s.main) && s.joiner != Asleep(false)
    requires ListWeight(s'.list, s'.nodes, s'.clients) < ListWeight(s.list, s.nodes, s.clients)
    ensures Rank(s') < Rank(s)
  {
  }

  predicate IsPeerAction(a: Action, c: Conn) {
    (a.PeerEnds? || a.PeerSends? || a.PeerTakes?) && a.c == c
  }

  lemma PeerEffect(s: State, a: Action, c: Conn)
    requires Enabled(s, a) && IsPeerAction(a, c) && !s.running
    ensures c in s.clients && InLoop(s.clients[c])
    ensures var s' := Next(s, a);
            && s'.list == s.list && s'.main == s.main && s'.joiner == s.joiner
            && NodeWeight(s'.nodes, s'.clients, c) < NodeWeight(s.nodes, s.clients, c)
            && forall d :: d != c ==> NodeWeight(s'.nodes, s'.clients, d) == NodeWeight(s.nodes, s.clients, d)
  {
  }

  lemma PeerLowersRank(s: State, a: Action, c: Conn)
    requires Inv(s) && PastBroadcast(s.main) && Enabled(s, a) && IsPeerAction(a, c)
    ensures Rank(Next(s, a)) < Rank(s) && PastBroadcast(Next(s, a).main)
  {
    hide MutexRule, LogRule, ListRule, NodeRule, JoinedRule, SocketRule, LateRule, MissedRule, Rank, Next, NodeWeight;
    var s' := Next(s, a);
    PeerEffect(s, a, c);
    ClientInList(s, c);
    WeightDrops(s.list, s.nodes, s.clients, s'.nodes, s'.clients, c);
    JoinerRankGap(s, s');
  }

  lemma JoinLowersRank(s: State)
    requires Inv(s) && JoinerEnabled(s) && s.joiner.Join? && AnyCompleted(s)
    ensures Rank(JoinFirstCompleted(s)) < Rank(s)
  {
    hide MutexRule, LogRule, ListRule, NodeRule, JoinedRule, SocketRule, WakeRule, LateRule, MissedRule;
    hide FirstCompleted, JoinFirstCompleted, JoinerRank;
    var k := FirstCompleted(s.list, s.nodes);
    var s' := JoinFirstCompleted(s);
    JoinOneEffect(s);
    WeightWithout(s.list, k, s.nodes, s.clients);
    WeightSame(s'.list, s.nodes, s.clients, s'.nodes, s'.clients);
    RankBounds(s');
  }

  lemma CloseLowersRank(s: State)
    requires s.joiner.CloseAll? && FirstOpen(s.list, s.nodes) < |s.list|
    ensures Rank(CloseFirstOpen(s)) < Rank(s)
  {
    hide FirstCompleted;
    var s' := CloseFirstOpen(s);
    WeightDrops(s.list, s.nodes, s.clients, s'.nodes, s'.clients, s.list[FirstOpen(s.list, s.nodes)]);
  }

  lemma JoinerMoveLowersRank(s: State)
    requires !s.running && s.joiner != Asleep(false) && !s.joiner.InnerScan? && JoinerEnabled(s)
    requires !(s.joiner.Join? && AnyCompleted(s)) && !(s.joiner.CloseAll? && FirstOpen(s.list, s.nodes) < |s.list|)
    ensures Rank(JoinerStep(s)) < Rank(s)
  {
    hide FirstCompleted, FirstOpen, ListWeight;
  }

  lemma JoinerLowersRank(s: State)
    requires Inv(s) && PastBroadcast(s.main) && JoinerEnabled(s)
    ensures Rank(JoinerStep(s)) < Rank(s)
  {
    hide Rank, FirstCompleted, FirstOpen, JoinFirstCompleted, CloseFirstOpen;
    if s.joiner.Join? && AnyCompleted(s) {
      JoinLowersRank(s);
    } else if s.joiner.CloseAll? && FirstOpen(s.list, s.nodes) < |s.list| {
      CloseLowersRank(s);
    } else {
      JoinerMoveLowersRank(s);
    }
  }

  /** After the broadcast every step of a thread, or of a peer, brings shutdown nearer. */
  lemma StepLowersRank(s: State, a: Action)
    requires Inv(s) && PastBroadcast(s.main) && Enabled(s, a) && IsProgress(a)
    ensures Rank(Next(s, a)) < Rank(s) && PastBroadcast(Next(s, a).main)
  {
    hide Rank, Inv;
    match a
    case Main(ok, c) => MainLowersRank(s, ok, c);
    case Joiner => JoinerLowersRank(s);
    case PeerEnds(c) => PeerLowersRank(s, a, c);
    case PeerSends(c, _) => PeerLowersRank(s, a, c);
    case PeerTakes(c, _) => PeerLowersRank(s, a, c);
    case Client(c) => ClientLowersRank(s, c);
  }

  lemma MainLowersRank(s: State, ok: bool, c: Conn)
    requires PastBroadcast(s.main) && MainEnabled(s, ok, c)
    ensures Rank(MainStep(s, ok, c)) < Rank(s) && PastBroadcast(MainStep(s, ok, c).main)
  {
  }

  /** A run made of enabled steps of threads and peers only. */
  predicate ProgressRun(s: State, actions: seq<Action>)
    decreases |actions|
  {
    actions == [] ||
    (IsProgress(actions[0]) && Enabled(s, actions[0]) && ProgressRun(Next(s, actions[0]), actions[1..]))
  }

  /** After the broadcast only boundedly many steps are left, whatever the order they come in. */
  lemma {:induction false} ShutdownIsBounded(s: State, actions: seq<Action>)
    requires Inv(s) && PastBroadcast(s.main) && ProgressRun(s, actions)
    ensures |actions| <= Rank(s)
    decreases |actions|
  {
    hide Rank, Inv, Next, Enabled;
    if actions == [] {
    } else {
      StepLowersRank(s, actions[0]);
      StepKeepsInv(s, actions[0]);
      ShutdownIsBounded(Next(s, actions[0]), actions[1..]);
    }
  }

  // ---------------------------------------------------------------- where shutdown ends

  /** No thread can take a step by itself. */
  ghost predicate Stuck(s: State) {
    forall a :: IsThreadStep(a) ==> !Enabled(s, a)
  }

  /** A client thread that waits in recv or in send on a socket nobody has closed. */
  predicate WaitsForPeer(s: State, c: Conn) {
    && c in s.clients && (s.clients[c].Serving? || s.clients[c].HoldsLog?)
    && c in s.nodes && s.nodes[c].socketOpen
  }

  /** A client thread that cannot go on: it has ended, waits for its peer, or for log_file_mutex. */
  predicate Rests(s: State, c: Conn)
    requires c in s.clients
  {
    s.clients[c].Exited? || WaitsForPeer(s, c) || (s.clients[c].WantsLog? && s.logOwner.Some?)
  }

  /** Main has joined the joiner, or it waits for the joiner, which sleeps in its second wait; no client can go on. */
  ghost predicate StuckShape(s: State) {
    && (if s.joiner.Gone? then s.main.Done? else s.main.JoiningJoiner? && s.joiner == Asleep(true))
    && forall c :: c in s.clients ==> Rests(s, c)
  }

  ghost predicate AllBlocked(s: State) {
    && !MainEnabled(s, true, 0) && !JoinerEnabled(s)
    && forall c :: c in s.clients ==> !ClientEnabled(s, c)
  }

  lemma StuckMeansBlocked(s: State)
    requires Stuck(s)
    ensures AllBlocked(s)
  {
    hide ClientEnabled, MainEnabled, JoinerEnabled;
    assert !Enabled(s, Joiner) && !Enabled(s, Main(true, 0));
    forall c | c in s.clients
      ensures !ClientEnabled(s, c)
    {
      assert !Enabled(s, Client(c));
    }
  }

  lemma NobodyHolds(s: State)
    requires MutexInv(s) && NodeInv(s) && PastBroadcast(s.main) && AllBlocked(s)
    ensures s.owner.Nobody?
  {
  }

  lemma LoopHasNode(s: State)
    requires ListInv(s) && JoinedInv(s)
    ensures forall c :: c in s.clients && InLoop(s.clients[c]) ==> c in s.nodes
  {
  }

  /** After the broadcast, exactly the states of that shape are those where no thread can go on. */
  lemma StuckExactly(s: State)
    requires Inv(s) && PastBroadcast(s.main)
    ensures Stuck(s) <==> StuckShape(s)
  {
    hide ListRule, LogRule, NodeRule, JoinedRule, SocketRule, LateRule, MissedRule, FirstCompleted;
    if Stuck(s) {
      StuckMeansBlocked(s);
      NobodyHolds(s);
      LoopHasNode(s);
    }
  }

  /** Whoever has not ended waits, for log_file_mutex perhaps, for a peer of a client the close pass has missed. */
  lemma SomebodyIsMissed(s: State, c: Conn)
    requires LogInv(s) && MissedInv(s) && StuckShape(s) && c in s.clients && !s.clients[c].Exited?
    ensures exists d :: d in s.missed && d !in s.ended
  {
    var d := if WaitsForPeer(s, c) then c else s.logOwner.value;
    assert WaitsForPeer(s, d);
    assert d in s.missed && d !in s.ended;
  }

  /** The joiner does not sleep on a list whose threads have all ended. */
  lemma SleeperHasSomebody(s: State)
    requires ListInv(s) && NodeInv(s) && WakeInv(s) && PastBroadcast(s.main) && s.joiner == Asleep(true)
    ensures exists c :: c in s.clients && !s.clients[c].Exited?
  {
    var c := s.list[0];
    assert c in s.nodes && c in s.clients;
    if s.nodes[c].completed {
      assert s.clients[c].Signalling?;
    }
  }

  /** When main is done, clients that are not late have left their loops. */
  lemma DoneHasNoneMissed(s: State)
    requires WakeInv(s) && LateInv(s) && MissedInv(s) && s.main.Done?
    ensures s.missed - s.late <= s.ended
  {
  }

  /** Whether main, and with it the server, has ended, in a state where no thread can go on. */
  lemma DoneExactly(s: State)
    requires Inv(s) && PastBroadcast(s.main) && Stuck(s)
    ensures s.main.Done? <==> s.missed - s.late <= s.ended
  {
    hide Stuck, ListRule, LogRule, NodeRule, JoinedRule, SocketRule, WakeRule, MissedRule, Rests;
    StuckExactly(s);
    if s.main.Done? {
      DoneHasNoneMissed(s);
    } else {
      SleeperHasSomebody(s);
      var c :| c in s.clients && !s.clients[c].Exited?;
      SomebodyIsMissed(s, c);
    }
  }

  /** Main is done, and so are all client threads. */
  ghost predicate AllEnded(s: State) {
    s.main.Done? && forall c :: c in s.clients ==> s.clients[c].Exited?
  }

  /** The same for all threads: the late ones hold up nobody, but may go on themselves. */
  lemma AllEndedExactly(s: State)
    requires Inv(s) && PastBroadcast(s.main) && Stuck(s)
    ensures AllEnded(s) <==> s.missed <= s.ended
  {
    hide Stuck, ListRule, LogRule, NodeRule, JoinedRule, SocketRule, WakeRule, LateRule, Rests;
    StuckExactly(s);
    DoneExactly(s);
    if s.missed <= s.ended {
      forall c | c in s.clients
        ensures s.clients[c].Exited?
      {
        if !s.clients[c].Exited? {
          SomebodyIsMissed(s, c);
        }
      }
    }
  }

  /** A run made of enabled thread steps only: the peers stay silent. */
  predicate ThreadRun(s: State, actions: seq<Action>)
    decreases |actions|
  {
    actions == [] ||
    (IsThreadStep(actions[0]) && Enabled(s, actions[0]) && ThreadRun(Next(s, actions[0]), actions[1..]))
  }

  lemma MainMissesNobody(s: State, ok: bool, c: Conn)
    requires PastBroadcast(s.main)
    ensures var s' := MainStep(s, ok, c);
            s'.missed == s.missed && s'.late == s.late && s'.ended == s.ended && PastBroadcast(s'.main)
  {
  }

  lemma JoinsMissNobody(s: State)
    requires AnyCompleted(s)
    ensures var s' := JoinFirstCompleted(s);
            s'.missed == s.missed && s'.late == s.late && s'.ended == s.ended && s'.main == s.main
  {
    hide FirstCompleted, JoinTarget, IsThread;
  }

  lemma JoinerMissesNobody(s: State)
    ensures var s' := JoinerStep(s);
            s'.missed == s.missed && s'.late == s.late && s'.ended == s.ended && s'.main == s.main
  {
    hide AnyCompleted, FirstOpen, JoinerMove, OwnerAfter, JoinFirstCompleted;
    if s.joiner.Join? && AnyCompleted(s) {
      JoinsMissNobody(s);
    }
  }

  lemma ClientMissesNobody(s: State, c: Conn)
    requires c in s.clients
    ensures var s' := ClientStep(s, c);
            s'.missed == s.missed && s'.late == s.late && s'.ended == s.ended && s'.main == s.main
  {
    hide ClientMove, Wake;
  }

  lemma ThreadStepMissesNobody(s: State, a: Action)
    requires PastBroadcast(s.main) && Enabled(s, a) && IsThreadStep(a)
    ensures var s' := Next(s, a);
            s'.missed == s.missed && s'.late == s.late && s'.ended == s.ended && PastBroadcast(s'.main)
  {
    hide MainStep, JoinerStep, ClientStep;
    match a
    case Main(ok, c) => MainMissesNobody(s, ok, c);
    case Joiner => JoinerMissesNobody(s);
    case Client(c) => ClientMissesNobody(s, c);
  }

  lemma {:induction false} ThreadRunMissesNobody(s: State, actions: seq<Action>)
    requires Inv(s) && PastBroadcast(s.main) && ThreadRun(s, actions)
    ensures var s' := Run(s, actions);
            Inv(s') && s'.missed == s.missed && s'.late == s.late && s'.ended == s.ended && PastBroadcast(s'.main)
    decreases |actions|
  {
    hide Inv, Next, Enabled;
    if actions == [] {
    } else {
      ThreadStepMissesNobody(s, actions[0]);
      StepKeepsInv(s, actions[0]);
      ThreadRunMissesNobody(Next(s, actions[0]), actions[1..]);
    }
  }

  /**
    From every reachable state past the broadcast, every maximal run of the threads ends with main
    done, if and only if the peer has ended each client created after the close pass and before the
    joiner went; so always, when there is none. All client threads have ended as well if and only
    if the peer has ended the late ones, too.
   */
  lemma ShutdownCompletesExactly(actions: seq<Action>, rest: seq<Action>)
    requires var s := Run(INIT, actions);
             PastBroadcast(s.main) && ThreadRun(s, rest) && Stuck(Run(s, rest))
    ensures var s := Run(INIT, actions);
            && (Run(s, rest).main.Done? <==> s.missed - s.late <= s.ended)
            && (AllEnded(Run(s, rest)) <==> s.missed <= s.ended)
  {
    hide Inv, Stuck, AllEnded, ThreadRun, Run, PastBroadcast;
    InitInv();
    RunKeepsInv(INIT, actions);
    ThreadRunMissesNobody(Run(INIT, actions), rest);
    DoneExactly(Run(Run(INIT, actions), rest));
    AllEndedExactly(Run(Run(INIT, actions), rest));
  }

  /**
    When main is done, every client created before the joiner went is joined, every accepted socket
    but those of late clients is closed exactly once, and the list holds the late clients.
   */
  lemma WhenMainIsDone(actions: seq<Action>)
    requires Run(INIT, actions).main.Done?
    ensures var s := Run(INIT, actions);
            && (forall c :: c in s.clients ==> s.joined[c] == if c in s.late then 0 else 1)
            && (forall c :: c in s.accepted && c !in s.late ==> s.closed[c] == 1)
            && (forall c :: c in s.list <==> c in s.late)
  {
    hide LogRule, MutexRule, MissedRule, Run;
    InitInv();
    RunKeepsInv(INIT, actions);
  }
}
