/** What holds in every run of the thread protocol. */
module ThreadProofs {
  import opened Bytes
  import opened ThreadProtocol

  /** What main's steps outside the creation of a thread do. */
  lemma MainControlFrame(s: State, ok: bool, c: Conn)
    requires !(s.main.Allocating? && ok) && !s.main.Inserted? && !s.main.Spawned?
    ensures var (m', use) := MainMove(s.main, s.running, ok, c);
            MainStep(s, ok, c) ==
            s.(main := m', owner := OwnerAfter(use, MainThread, s.owner),
               accepted := if s.main.AtAccept? && ok then s.accepted + {c} else s.accepted,
               closed := if s.main.ClosingFailed? then s.closed + multiset{s.main.c} else s.closed,
               running := if s.main.Stopping? then false else s.running,
               joiner := if s.main.Broadcasting? then Wake(s.joiner) else s.joiner)
  {
    hide MainMove, OwnerAfter, Wake;
  }

  lemma CreationAfterMove(m: MainPc, running: bool, ok: bool, c: Conn)
    requires !(m.Allocating? && ok) && !m.Inserted? && !m.Spawned?
    ensures var m' := MainMove(m, running, ok, c).0;
            && ListedUncreated(m) == ListedUncreated(m') == {}
            && !m'.Inserted? && !m'.Spawned?
            && InCreation(m') == (if m.AtAccept? && ok then {c} else if m.ClosingFailed? then {} else InCreation(m))
            && (m.AtAccept? ==> InCreation(m) == {})
            && (m.ClosingFailed? ==> InCreation(m) == {m.c})
            && (m.CreateFailed? ==> m'.ClosingFailed?)
            && (m'.Waking? || m'.Broadcasting? || PastBroadcast(m') ==>
                  m.Waking? || m.Broadcasting? || PastBroadcast(m) || m.Stopping?)
            && (PastBroadcast(m') ==> PastBroadcast(m) || m.Broadcasting?)
            && (m'.Done? ==> m.Done? || m.JoiningJoiner?)
  {
  }

  /** ListRule looks only at which nodes and threads there are, and at the thread main has just created. */
  lemma ListByKeys(list: seq<Conn>, nodes: map<Conn, Node>, clients: map<Conn, ClientPc>, joined: multiset<Conn>,
                   main: MainPc, accepted: set<Conn>, nodes': map<Conn, Node>, clients': map<Conn, ClientPc>)
    requires ListRule(list, nodes, clients, joined, main, accepted)
    requires nodes'.Keys == nodes.Keys && clients'.Keys == clients.Keys
    requires main.Spawned? ==> InLoop(clients'[main.c]) || clients'[main.c].WantsMutex?
    ensures ListRule(list, nodes', clients', joined, main, accepted)
  {
    assert forall c :: (c in nodes' <==> c in nodes) && (c in clients' <==> c in clients);
  }

  lemma MainControlKeepsMutexInv(s: State, ok: bool, c: Conn)
    requires MutexInv(s)
    requires MainEnabled(s, ok, c)
    requires !(s.main.Allocating? && ok) && !s.main.Inserted? && !s.main.Spawned?
    ensures MutexInv(MainStep(s, ok, c))
  {
    hide MainStep, MainMove, MainHolds;
    MainControlFrame(s, ok, c);
    MainMoveAndMutex(s.main, s.running, ok, c);
  }

  lemma MainMoveAndMutex(m: MainPc, running: bool, ok: bool, c: Conn)
    ensures var (m', use) := MainMove(m, running, ok, c);
            match use
            case Keep => MainHolds(m') == MainHolds(m)
            case Acquire => !MainHolds(m) && MainHolds(m') && (m.Accepted? || m.Waking?)
            case Release => MainHolds(m) && !MainHolds(m')
  {
  }

  lemma MainControlKeepsListInv(s: State, ok: bool, c: Conn)
    requires ListInv(s)
    requires MainEnabled(s, ok, c)
    requires !(s.main.Allocating? && ok) && !s.main.Inserted? && !s.main.Spawned?
    ensures ListInv(MainStep(s, ok, c))
  {
    hide MainStep, MainMove, InCreation, ListedUncreated;
    MainControlFrame(s, ok, c);
    CreationAfterMove(s.main, s.running, ok, c);
  }

  lemma MainControlKeepsNodeInv(s: State, ok: bool, c: Conn)
    requires NodeInv(s)
    requires MainEnabled(s, ok, c)
    requires !(s.main.Allocating? && ok) && !s.main.Inserted? && !s.main.Spawned?
    ensures NodeInv(MainStep(s, ok, c))
  {
    hide MainStep, MainMove, InCreation, ListedUncreated;
    MainControlFrame(s, ok, c);
    CreationAfterMove(s.main, s.running, ok, c);
  }

  lemma MainControlKeepsJoinedInv(s: State, ok: bool, c: Conn)
    requires JoinedInv(s) && ListInv(s)
    requires MainEnabled(s, ok, c)
    requires !(s.main.Allocating? && ok) && !s.main.Inserted? && !s.main.Spawned?
    ensures JoinedInv(MainStep(s, ok, c))
  {
    hide MainStep, MainMove, InCreation, ListedUncreated;
    MainControlFrame(s, ok, c);
    CreationAfterMove(s.main, s.running, ok, c);
  }

  lemma MainControlKeepsSocketInv(s: State, ok: bool, c: Conn)
    requires SocketInv(s) && ListInv(s)
    requires MainEnabled(s, ok, c)
    requires !(s.main.Allocating? && ok) && !s.main.Inserted? && !s.main.Spawned?
    ensures SocketInv(MainStep(s, ok, c))
  {
    hide MainStep, MainMove, InCreation, ListedUncreated;
    MainControlFrame(s, ok, c);
    CreationAfterMove(s.main, s.running, ok, c);
  }

  lemma MainControlKeepsWakeInv(s: State, ok: bool, c: Conn)
    requires WakeInv(s) && MutexInv(s)
    requires MainEnabled(s, ok, c)
    requires !(s.main.Allocating? && ok) && !s.main.Inserted? && !s.main.Spawned?
    ensures WakeInv(MainStep(s, ok, c))
  {
    hide MainStep, MainMove, InCreation, ListedUncreated;
    MainControlFrame(s, ok, c);
    CreationAfterMove(s.main, s.running, ok, c);
  }

  lemma MainControlKeepsLateInv(s: State, ok: bool, c: Conn)
    requires LateInv(s)
    requires MainEnabled(s, ok, c)
    requires !(s.main.Allocating? && ok) && !s.main.Inserted? && !s.main.Spawned?
    ensures LateInv(MainStep(s, ok, c))
  {
    hide MainStep, MainMove, InCreation, ListedUncreated;
    MainControlFrame(s, ok, c);
    CreationAfterMove(s.main, s.running, ok, c);
  }

  lemma MainControlKeepsMissedInv(s: State, ok: bool, c: Conn)
    requires MissedInv(s)
    requires MainEnabled(s, ok, c)
    requires !(s.main.Allocating? && ok) && !s.main.Inserted? && !s.main.Spawned?
    ensures MissedInv(MainStep(s, ok, c))
  {
    hide MainStep, MainMove;
    MainControlFrame(s, ok, c);
  }

  /** The steps inside create_client_communication_thread, spelled out. */
  lemma InsertEffect(s: State)
    requires s.main.Allocating?
    ensures var d := s.main.c;
            MainStep(s, true, 0) ==
            s.(main := Inserted(d), list := [d] + s.list, nodes := s.nodes[d := Node(0, false, true)])
  {
  }

  lemma RemoveHeadEffect(s: State)
    requires s.main.Inserted? && s.list != []
    ensures var d := s.main.c;
            MainStep(s, false, 0) ==
            s.(main := CreateFailed(d), list := s.list[1..], nodes := s.nodes - {d}, freed := s.freed + multiset{d})
  {
  }

  lemma SpawnEffect(s: State)
    requires s.main.Inserted?
    ensures var d := s.main.c;
            MainStep(s, true, 0) ==
            s.(main := Spawned(d), clients := s.clients[d := Serving],
               missed := if PastClosePass(s.joiner) then s.missed + {d} else s.missed,
               late := if s.joiner.Gone? then s.late + {d} else s.late)
  {
  }

  lemma StoreIdEffect(s: State)
    requires s.main.Spawned? && s.main.c in s.nodes
    ensures var d := s.main.c;
            && MainStep(s, true, 0) == s.(main := Stored, nodes := s.nodes[d := s.nodes[d].(threadId := IdOf(d))])
            && MainStep(s, true, 0).nodes.Keys == s.nodes.Keys
  {
  }

  lemma InsertKeepsListInv(s: State)
    requires ListInv(s) && JoinedInv(s)
    requires s.main.Allocating?
    ensures ListInv(MainStep(s, true, 0))
  {
    hide MainStep, MainMove;
    InsertEffect(s);
  }

  lemma InsertKeepsNodeInv(s: State)
    requires ListInv(s) && NodeInv(s) && SocketInv(s)
    requires s.main.Allocating?
    ensures NodeInv(MainStep(s, true, 0)) && SocketInv(MainStep(s, true, 0))
  {
    hide MainStep, MainMove;
    InsertEffect(s);
  }

  lemma InsertKeepsJoinedInv(s: State)
    requires MutexInv(s) && ListInv(s) && JoinedInv(s)
    requires s.main.Allocating?
    ensures MutexInv(MainStep(s, true, 0)) && JoinedInv(MainStep(s, true, 0))
  {
    hide MainStep, MainMove;
    InsertEffect(s);
  }

  lemma InsertKeepsMissedInv(s: State)
    requires ListInv(s) && NodeInv(s) && MissedInv(s)
    requires s.main.Allocating?
    ensures MissedInv(MainStep(s, true, 0))
  {
    hide MainStep, MainMove;
    InsertEffect(s);
  }

  lemma InsertKeepsWakeInv(s: State)
    requires MutexInv(s) && ListInv(s) && JoinedInv(s) && WakeInv(s) && LateInv(s)
    requires s.main.Allocating?
    ensures WakeInv(MainStep(s, true, 0)) && LateInv(MainStep(s, true, 0))
  {
    hide MainStep, MainMove;
    InsertEffect(s);
  }

  lemma RemoveHeadKeepsListInv(s: State)
    requires ListInv(s) && JoinedInv(s)
    requires s.main.Inserted? && s.list != []
    ensures ListInv(MainStep(s, false, 0))
  {
    hide MainStep, MainMove;
    RemoveHeadEffect(s);
  }

  lemma RemoveHeadKeepsNodeInv(s: State)
    requires ListInv(s) && NodeInv(s) && SocketInv(s)
    requires s.main.Inserted? && s.list != []
    ensures NodeInv(MainStep(s, false, 0)) && SocketInv(MainStep(s, false, 0))
  {
    hide MainStep, MainMove;
    RemoveHeadEffect(s);
  }

  lemma RemoveHeadKeepsJoinedInv(s: State)
    requires MutexInv(s) && ListInv(s) && JoinedInv(s)
    requires s.main.Inserted? && s.list != []
    ensures MutexInv(MainStep(s, false, 0)) && JoinedInv(MainStep(s, false, 0))
  {
    hide MainStep, MainMove;
    RemoveHeadEffect(s);
  }

  lemma RemoveHeadKeepsMissedInv(s: State)
    requires ListInv(s) && NodeInv(s) && MissedInv(s)
    requires s.main.Inserted? && s.list != []
    ensures MissedInv(MainStep(s, false, 0))
  {
    hide MainStep, MainMove;
    RemoveHeadEffect(s);
  }

  lemma RemoveHeadKeepsWakeInv(s: State)
    requires MutexInv(s) && ListInv(s) && JoinedInv(s) && WakeInv(s) && LateInv(s)
    requires s.main.Inserted? && s.list != []
    ensures WakeInv(MainStep(s, false, 0)) && LateInv(MainStep(s, false, 0))
  {
    hide MainStep, MainMove;
    RemoveHeadEffect(s);
  }

  lemma SpawnKeepsListInv(s: State)
    requires ListInv(s) && JoinedInv(s)
    requires s.main.Inserted?
    ensures ListInv(MainStep(s, true, 0))
  {
    hide MainStep, MainMove;
    SpawnEffect(s);
  }

  lemma SpawnKeepsLogInv(s: State)
    requires LogInv(s) && ListInv(s)
    requires s.main.Inserted?
    ensures LogInv(MainStep(s, true, 0))
  {
    hide MainStep, MainMove;
    SpawnEffect(s);
  }

  lemma SpawnKeepsNodeInv(s: State)
    requires ListInv(s) && NodeInv(s) && SocketInv(s)
    requires s.main.Inserted?
    ensures NodeInv(MainStep(s, true, 0)) && SocketInv(MainStep(s, true, 0))
  {
    hide MainStep, MainMove;
    SpawnEffect(s);
  }

  lemma SpawnKeepsJoinedInv(s: State)
    requires MutexInv(s) && ListInv(s) && JoinedInv(s)
    requires s.main.Inserted?
    ensures MutexInv(MainStep(s, true, 0)) && JoinedInv(MainStep(s, true, 0))
  {
    hide MainStep, MainMove;
    SpawnEffect(s);
  }

  lemma SpawnKeepsMissedInv(s: State)
    requires ListInv(s) && NodeInv(s) && MissedInv(s)
    requires s.main.Inserted?
    ensures MissedInv(MainStep(s, true, 0))
  {
    hide MainStep, MainMove;
    SpawnEffect(s);
  }

  lemma SpawnKeepsWakeInv(s: State)
    requires ListInv(s) && WakeInv(s)
    requires s.main.Inserted?
    ensures WakeInv(MainStep(s, true, 0))
  {
    hide MainStep, MainMove;
    SpawnEffect(s);
  }

  lemma SpawnKeepsLateInv(s: State)
    requires MutexInv(s) && ListInv(s) && JoinedInv(s) && LateInv(s)
    requires s.main.Inserted?
    ensures LateInv(MainStep(s, true, 0))
  {
    hide MainStep, MainMove;
    SpawnEffect(s);
  }

  lemma StoreIdKeepsListInv(s: State)
    requires ListInv(s) && JoinedInv(s)
    requires s.main.Spawned? && s.main.c in s.nodes
    ensures ListInv(MainStep(s, true, 0))
  {
    hide MainStep, MainMove;
    StoreIdEffect(s);
  }

  lemma StoreIdKeepsNodeInv(s: State)
    requires ListInv(s) && NodeInv(s) && SocketInv(s)
    requires s.main.Spawned? && s.main.c in s.nodes
    ensures NodeInv(MainStep(s, true, 0)) && SocketInv(MainStep(s, true, 0))
  {
    hide MainStep, MainMove;
    StoreIdEffect(s);
  }

  lemma StoreIdKeepsJoinedInv(s: State)
    requires MutexInv(s) && ListInv(s) && JoinedInv(s)
    requires s.main.Spawned? && s.main.c in s.nodes
    ensures MutexInv(MainStep(s, true, 0)) && JoinedInv(MainStep(s, true, 0))
  {
    hide MainStep, MainMove;
    StoreIdEffect(s);
  }

  lemma StoreIdKeepsMissedInv(s: State)
    requires ListInv(s) && NodeInv(s) && MissedInv(s)
    requires s.main.Spawned? && s.main.c in s.nodes
    ensures MissedInv(MainStep(s, true, 0))
  {
    hide MainStep, MainMove;
    StoreIdEffect(s);
  }

  lemma StoreIdKeepsWakeInv(s: State)
    requires MutexInv(s) && ListInv(s) && JoinedInv(s) && WakeInv(s) && LateInv(s)
    requires s.main.Spawned? && s.main.c in s.nodes
    ensures WakeInv(MainStep(s, true, 0)) && LateInv(MainStep(s, true, 0))
  {
    hide MainStep, MainMove;
    StoreIdEffect(s);
  }

  lemma JoinerControlKeepsMutexInv(s: State)
    requires MutexInv(s)
    requires JoinerEnabled(s)
    requires !(s.joiner.Join? && AnyCompleted(s))
    requires !(s.joiner.CloseAll? && FirstOpen(s.list, s.nodes) < |s.list|)
    ensures MutexInv(JoinerStep(s))
  {
  }

  lemma JoinerControlEffect(s: State)
    requires !(s.joiner.Join? && AnyCompleted(s))
    requires !(s.joiner.CloseAll? && FirstOpen(s.list, s.nodes) < |s.list|)
    ensures var (j', use) := JoinerMove(s.joiner, s.running, AnyCompleted(s), s.list == []);
            JoinerStep(s) == s.(joiner := j', owner := OwnerAfter(use, JoinerThread, s.owner))
  {
  }

  /** How the joiner comes to sleep and to force, and that it looks at the flag before it scans. */
  lemma JoinerMoveFacts(j: JoinerPc, running: bool, anyCompleted: bool, empty: bool)
    requires !j.Asleep?
    ensures var j' := JoinerMove(j, running, anyCompleted, empty).0;
            && (j'.Asleep? ==> !anyCompleted && (if j'.force then j.ForceInner? && !empty else j.InnerScan?))
            && (Forcing(j') ==> Forcing(j) || !running)
            && (j'.InnerScan? ==> running)
            && (PastClosePass(j') <==> PastClosePass(j) || j.CloseAll?)
            && (j.Gone? ==> j'.Gone?)
  {
  }

  lemma NoneCompleted(s: State)
    requires ListInv(s) && NodeInv(s) && !AnyCompleted(s)
    ensures forall c :: c in s.nodes ==> !s.nodes[c].completed
  {
    forall c | c in s.nodes
      ensures !s.nodes[c].completed
    {
      var i :| 0 <= i < |s.list| && s.list[i] == c;
    }
  }

  lemma JoinerControlKeepsWakeInv(s: State)
    requires WakeInv(s) && MutexInv(s) && ListInv(s) && NodeInv(s)
    requires JoinerEnabled(s)
    requires !(s.joiner.Join? && AnyCompleted(s))
    requires !(s.joiner.CloseAll? && FirstOpen(s.list, s.nodes) < |s.list|)
    ensures WakeInv(JoinerStep(s))
  {
    hide JoinerStep, JoinerMove, FirstCompleted, FirstOpen, NodeRule, ListRule;
    JoinerControlEffect(s);
    JoinerMoveFacts(s.joiner, s.running, AnyCompleted(s), s.list == []);
    if !AnyCompleted(s) {
      NoneCompleted(s);
    }
  }

  /** The close pass ends when no listed socket is open. */
  lemma AllClosed(s: State)
    requires MutexInv(s) && ListInv(s) && s.joiner.CloseAll? && FirstOpen(s.list, s.nodes) == |s.list|
    ensures forall c :: c in s.nodes ==> !s.nodes[c].socketOpen
  {
    forall c | c in s.nodes
      ensures !s.nodes[c].socketOpen
    {
      var i :| 0 <= i < |s.list| && s.list[i] == c;
    }
  }

  lemma JoinerControlKeepsMissedInv(s: State)
    requires MissedInv(s) && MutexInv(s) && ListInv(s)
    requires JoinerEnabled(s)
    requires !(s.joiner.Join? && AnyCompleted(s))
    requires !(s.joiner.CloseAll? && FirstOpen(s.list, s.nodes) < |s.list|)
    ensures MissedInv(JoinerStep(s))
  {
    hide JoinerStep, JoinerMove, FirstCompleted, FirstOpen, ListRule;
    JoinerControlEffect(s);
    JoinerMoveFacts(s.joiner, s.running, AnyCompleted(s), s.list == []);
    if s.joiner.CloseAll? {
      AllClosed(s);
    }
  }

  lemma JoinerControlKeepsLateInv(s: State)
    requires LateInv(s) && ListInv(s) && MutexInv(s)
    requires JoinerEnabled(s)
    requires !(s.joiner.Join? && AnyCompleted(s))
    requires !(s.joiner.CloseAll? && FirstOpen(s.list, s.nodes) < |s.list|)
    ensures LateInv(JoinerStep(s))
  {
  }

  /** Joining the first completed node joins its own thread, which has exited, for the first time. */
  lemma JoinOneEffect(s: State)
    requires MutexInv(s)
    requires ListInv(s)
    requires NodeInv(s)
    requires JoinerEnabled(s) && s.joiner.Join? && AnyCompleted(s)
    ensures var k := FirstCompleted(s.list, s.nodes);
            var c := s.list[k];
            && c in s.nodes && c in s.clients && s.clients[c].Exited? && s.joined[c] == 0
            && !s.main.Inserted? && !s.main.Spawned?
            && JoinFirstCompleted(s) ==
               s.(joined := s.joined + multiset{c}, freed := s.freed + multiset{c},
                  list := s.list[..k] + s.list[k + 1..], nodes := s.nodes - {c})
  {
    hide FirstCompleted;
  }

  lemma RemoveOne(list: seq<Conn>, k: nat)
    requires Distinct(list) && k < |list|
    ensures Distinct(list[..k] + list[k + 1..])
    ensures forall c :: c in list[..k] + list[k + 1..] <==> c in list && c != list[k]
  {
  }

  lemma JoinOneKeepsListInv(s: State)
    requires ListInv(s) && NodeInv(s) && JoinedInv(s) && MutexInv(s)
    requires JoinerEnabled(s) && s.joiner.Join? && AnyCompleted(s)
    ensures ListInv(JoinFirstCompleted(s))
  {
    hide FirstCompleted, JoinFirstCompleted, JoinerEnabled, MutexInv, NodeInv, Distinct;
    JoinOneEffect(s);
    RemoveOne(s.list, FirstCompleted(s.list, s.nodes));
  }

  lemma JoinOneKeepsNodeInv(s: State)
    requires NodeInv(s) && ListInv(s) && MutexInv(s)
    requires JoinerEnabled(s) && s.joiner.Join? && AnyCompleted(s)
    ensures NodeInv(JoinFirstCompleted(s))
  {
  }

  lemma JoinOneKeepsJoinedInv(s: State)
    requires JoinedInv(s) && ListInv(s) && NodeInv(s) && MutexInv(s)
    requires JoinerEnabled(s) && s.joiner.Join? && AnyCompleted(s)
    ensures JoinedInv(JoinFirstCompleted(s))
  {
    hide FirstCompleted, JoinFirstCompleted, JoinerEnabled, MutexInv, NodeInv, ListInv;
    JoinOneEffect(s);
  }

  lemma JoinOneKeepsSocketInv(s: State)
    requires SocketInv(s) && ListInv(s) && NodeInv(s) && MutexInv(s)
    requires JoinerEnabled(s) && s.joiner.Join? && AnyCompleted(s)
    ensures SocketInv(JoinFirstCompleted(s))
  {
    hide FirstCompleted, JoinFirstCompleted, JoinerEnabled, MutexInv, ListInv;
    JoinOneEffect(s);
  }

  lemma JoinOneKeepsWakeInv(s: State)
    requires WakeInv(s)
    requires JoinerEnabled(s) && s.joiner.Join? && AnyCompleted(s)
    ensures WakeInv(JoinFirstCompleted(s))
  {
  }

  lemma JoinOneKeepsLateInv(s: State)
    requires LateInv(s) && MutexInv(s) && ListInv(s) && JoinedInv(s)
    requires JoinerEnabled(s) && s.joiner.Join? && AnyCompleted(s)
    ensures LateInv(JoinFirstCompleted(s))
  {
  }

  lemma JoinOneKeepsMissedInv(s: State)
    requires MissedInv(s) && MutexInv(s) && ListInv(s) && NodeInv(s)
    requires JoinerEnabled(s) && s.joiner.Join? && AnyCompleted(s)
    ensures MissedInv(JoinFirstCompleted(s))
  {
    hide FirstCompleted, JoinFirstCompleted, JoinerEnabled, MutexRule, ListRule, NodeRule;
    JoinOneEffect(s);
  }

  lemma CloseOneKeepsListInv(s: State)
    requires ListInv(s)
    requires s.joiner.CloseAll? && FirstOpen(s.list, s.nodes) < |s.list|
    ensures ListInv(CloseFirstOpen(s))
  {
    var s' := CloseFirstOpen(s);
    assert s'.nodes.Keys == s.nodes.Keys;
    ListByKeys(s.list, s.nodes, s.clients, s.joined, s.main, s.accepted, s'.nodes, s'.clients);
  }

  lemma CloseOneKeepsNodeInv(s: State)
    requires NodeInv(s) && MutexInv(s)
    requires s.joiner.CloseAll? && FirstOpen(s.list, s.nodes) < |s.list|
    ensures NodeInv(CloseFirstOpen(s))
  {
  }

  lemma CloseOneKeepsSocketInv(s: State)
    requires SocketInv(s) && MutexInv(s) && ListInv(s)
    requires s.joiner.CloseAll? && FirstOpen(s.list, s.nodes) < |s.list|
    ensures SocketInv(CloseFirstOpen(s))
  {
  }

  lemma CloseOneKeepsWakeInv(s: State)
    requires WakeInv(s)
    requires s.joiner.CloseAll? && FirstOpen(s.list, s.nodes) < |s.list|
    ensures WakeInv(CloseFirstOpen(s))
  {
  }

  lemma CloseOneKeepsLateInv(s: State)
    requires LateInv(s)
    requires s.joiner.CloseAll? && FirstOpen(s.list, s.nodes) < |s.list|
    ensures LateInv(CloseFirstOpen(s))
  {
  }

  lemma CloseOneKeepsMissedInv(s: State)
    requires MissedInv(s)
    requires s.joiner.CloseAll? && FirstOpen(s.list, s.nodes) < |s.list|
    ensures MissedInv(CloseFirstOpen(s))
  {
  }

  /** What a client does outside its own node. */
  lemma ClientControlEffect(s: State, c: Conn)
    requires ClientEnabled(s, c)
    requires !InLoop(s.clients[c]) && !s.clients[c].Closing? && !s.clients[c].Completing?
    ensures var s', at := ClientStep(s, c), s.clients[c];
            && s' == s.(clients := s.clients[c := s'.clients[c]], owner := s'.owner,
                        joiner := if at.Signalling? then Wake(s.joiner) else s.joiner)
            && c in s'.clients && !InLoop(s'.clients[c])
  {
    hide Wake;
  }

  lemma ClientControlKeepsMutexInv(s: State, c: Conn)
    requires MutexInv(s)
    requires ClientEnabled(s, c)
    requires !InLoop(s.clients[c]) && !s.clients[c].Closing? && !s.clients[c].Completing?
    ensures MutexInv(ClientStep(s, c))
  {
  }

  lemma ClientControlKeepsLogInv(s: State, c: Conn)
    requires LogInv(s)
    requires ClientEnabled(s, c)
    requires !InLoop(s.clients[c]) && !s.clients[c].Closing? && !s.clients[c].Completing?
    ensures LogInv(ClientStep(s, c))
  {
    hide ClientStep;
    ClientControlEffect(s, c);
  }

  lemma ClientControlKeepsListInv(s: State, c: Conn)
    requires ListInv(s) && MutexInv(s)
    requires ClientEnabled(s, c)
    requires !InLoop(s.clients[c]) && !s.clients[c].Closing? && !s.clients[c].Completing?
    ensures ListInv(ClientStep(s, c))
  {
    var s' := ClientStep(s, c);
    assert s'.clients.Keys == s.clients.Keys && s'.nodes.Keys == s.nodes.Keys;
    ListByKeys(s.list, s.nodes, s.clients, s.joined, s.main, s.accepted, s'.nodes, s'.clients);
  }

  lemma ClientControlKeepsNodeInv(s: State, c: Conn)
    requires NodeInv(s)
    requires ClientEnabled(s, c)
    requires !InLoop(s.clients[c]) && !s.clients[c].Closing? && !s.clients[c].Completing?
    ensures NodeInv(ClientStep(s, c))
  {
  }

  lemma ClientControlKeepsJoinedInv(s: State, c: Conn)
    requires JoinedInv(s)
    requires ClientEnabled(s, c)
    requires !InLoop(s.clients[c]) && !s.clients[c].Closing? && !s.clients[c].Completing?
    ensures JoinedInv(ClientStep(s, c))
  {
  }

  lemma ClientControlKeepsWakeInv(s: State, c: Conn)
    requires WakeInv(s) && MutexInv(s) && NodeInv(s) && ListInv(s)
    requires ClientEnabled(s, c)
    requires !InLoop(s.clients[c]) && !s.clients[c].Closing? && !s.clients[c].Completing?
    ensures WakeInv(ClientStep(s, c))
  {
  }

  lemma ClientControlKeepsLateInv(s: State, c: Conn)
    requires LateInv(s)
    requires ClientEnabled(s, c)
    requires !InLoop(s.clients[c]) && !s.clients[c].Closing? && !s.clients[c].Completing?
    ensures LateInv(ClientStep(s, c))
  {
  }

  lemma ClientControlKeepsMissedInv(s: State, c: Conn)
    requires MissedInv(s)
    requires ClientEnabled(s, c)
    requires !InLoop(s.clients[c]) && !s.clients[c].Closing? && !s.clients[c].Completing?
    ensures MissedInv(ClientStep(s, c))
  {
    hide ClientStep;
    ClientControlEffect(s, c);
  }

  lemma ClientInList(s: State, c: Conn)
    requires ListInv(s) && JoinedInv(s) && c in s.clients && !s.clients[c].Exited?
    ensures c in s.list && c in s.nodes
  {
  }

  /** A client in its critical section changes its own node and its place, and keeps main out. */
  lemma OwnNodeFrame(s: State, c: Conn)
    requires MutexInv(s) && c in s.clients && (s.clients[c].Closing? || s.clients[c].Completing?)
    requires c in s.nodes
    ensures var s', closing, n := ClientStep(s, c), s.clients[c].Closing?, s.nodes[c];
            && s' == s.(clients := s.clients[c := if closing then Completing else Signalling],
                        nodes := s.nodes[c := if closing then n.(socketOpen := false) else n.(completed := true)],
                        closed := if closing && n.socketOpen then s.closed + multiset{c} else s.closed)
            && s'.nodes.Keys == s.nodes.Keys && s'.clients.Keys == s.clients.Keys
    ensures !s.main.Inserted? && !s.main.Spawned?
    ensures s.owner == ClientThread(c) && JoinerHolds(s.joiner) == false && MainHolds(s.main) == false
  {
    assert s.nodes[c := s.nodes[c]] == s.nodes;
  }

  lemma OwnNodeKeepsListInv(s: State, c: Conn)
    requires MutexInv(s) && c in s.clients && (s.clients[c].Closing? || s.clients[c].Completing?) && c in s.nodes
    requires ListInv(s)
    ensures ListInv(ClientStep(s, c))
  {
    hide ClientStep, ListRule;
    var s' := ClientStep(s, c);
    OwnNodeFrame(s, c);
    ListByKeys(s.list, s.nodes, s.clients, s.joined, s.main, s.accepted, s'.nodes, s'.clients);
  }

  lemma OwnNodeKeepsLogInv(s: State, c: Conn)
    requires MutexInv(s) && c in s.clients && (s.clients[c].Closing? || s.clients[c].Completing?) && c in s.nodes
    requires LogInv(s)
    ensures LogInv(ClientStep(s, c))
  {
    hide ClientStep, MutexRule;
    OwnNodeFrame(s, c);
  }

  lemma OwnNodeKeepsNodeInv(s: State, c: Conn)
    requires MutexInv(s) && c in s.clients && (s.clients[c].Closing? || s.clients[c].Completing?) && c in s.nodes
    requires NodeInv(s)
    ensures NodeInv(ClientStep(s, c))
  {
    hide ClientStep;
    OwnNodeFrame(s, c);
  }

  lemma OwnNodeKeepsSocketInv(s: State, c: Conn)
    requires MutexInv(s) && c in s.clients && (s.clients[c].Closing? || s.clients[c].Completing?) && c in s.nodes
    requires SocketInv(s) && ListInv(s)
    ensures SocketInv(ClientStep(s, c))
  {
    hide ClientStep;
    OwnNodeFrame(s, c);
  }

  lemma OwnNodeKeepsJoinedInv(s: State, c: Conn)
    requires MutexInv(s) && c in s.clients && (s.clients[c].Closing? || s.clients[c].Completing?) && c in s.nodes
    requires JoinedInv(s)
    ensures MutexInv(ClientStep(s, c)) && JoinedInv(ClientStep(s, c))
  {
    hide ClientStep;
    OwnNodeFrame(s, c);
  }

  lemma OwnNodeKeepsMissedInv(s: State, c: Conn)
    requires MutexInv(s) && c in s.clients && (s.clients[c].Closing? || s.clients[c].Completing?) && c in s.nodes
    requires MissedInv(s)
    ensures MissedInv(ClientStep(s, c))
  {
    hide ClientStep, MutexRule;
    OwnNodeFrame(s, c);
  }

  lemma OwnNodeKeepsLateInv(s: State, c: Conn)
    requires MutexInv(s) && c in s.clients && (s.clients[c].Closing? || s.clients[c].Completing?) && c in s.nodes
    requires WakeInv(s) && LateInv(s)
    ensures WakeInv(ClientStep(s, c)) && LateInv(ClientStep(s, c))
  {
    hide ClientStep;
    OwnNodeFrame(s, c);
  }

  // ---------------------------------------------------------------- every step keeps the invariant

  lemma MainControlKeepsInv(s: State, ok: bool, c: Conn)
    requires Inv(s)
    requires MainEnabled(s, ok, c)
    requires !(s.main.Allocating? && ok) && !s.main.Inserted? && !s.main.Spawned?
    ensures Inv(MainStep(s, ok, c))
  {
    hide MutexRule, LogRule, ListRule, NodeRule, JoinedRule, SocketRule, WakeRule, LateRule, MissedRule;
    MainControlFrame(s, ok, c);
    MainControlKeepsMutexInv(s, ok, c);
    MainControlKeepsListInv(s, ok, c);
    MainControlKeepsNodeInv(s, ok, c);
    MainControlKeepsJoinedInv(s, ok, c);
    MainControlKeepsSocketInv(s, ok, c);
    MainControlKeepsWakeInv(s, ok, c);
    MainControlKeepsLateInv(s, ok, c);
    MainControlKeepsMissedInv(s, ok, c);
  }

  lemma MainIsFirst(s: State)
    requires ListInv(s) && (s.main.Inserted? || s.main.Spawned?)
    ensures s.list != [] && s.list[0] == s.main.c && s.main.c in s.nodes
  {
  }

  lemma InsertKeepsInv(s: State)
    requires Inv(s) && s.main.Allocating?
    ensures Inv(MainStep(s, true, 0))
  {
    hide MutexRule, LogRule, ListRule, NodeRule, JoinedRule, SocketRule, WakeRule, LateRule, MissedRule, MainStep;
    InsertEffect(s);
    InsertKeepsListInv(s);
    InsertKeepsNodeInv(s);
    InsertKeepsJoinedInv(s);
    InsertKeepsWakeInv(s);
    InsertKeepsMissedInv(s);
  }

  lemma RemoveHeadKeepsInv(s: State)
    requires Inv(s) && s.main.Inserted?
    ensures Inv(MainStep(s, false, 0))
  {
    hide MutexRule, LogRule, ListRule, NodeRule, JoinedRule, SocketRule, WakeRule, LateRule, MissedRule, MainStep;
    MainIsFirst(s);
    RemoveHeadEffect(s);
    RemoveHeadKeepsListInv(s);
    RemoveHeadKeepsNodeInv(s);
    RemoveHeadKeepsJoinedInv(s);
    RemoveHeadKeepsWakeInv(s);
    RemoveHeadKeepsMissedInv(s);
  }

  lemma SpawnKeepsInv(s: State)
    requires Inv(s) && s.main.Inserted?
    ensures Inv(MainStep(s, true, 0))
  {
    hide MutexRule, LogRule, ListRule, NodeRule, JoinedRule, SocketRule, WakeRule, LateRule, MissedRule, MainStep;
    SpawnKeepsLogInv(s);
    SpawnKeepsListInv(s);
    SpawnKeepsNodeInv(s);
    SpawnKeepsJoinedInv(s);
    SpawnKeepsWakeInv(s);
    SpawnKeepsMissedInv(s);
    SpawnKeepsLateInv(s);
  }

  lemma StoreIdKeepsInv(s: State)
    requires Inv(s) && s.main.Spawned?
    ensures Inv(MainStep(s, true, 0))
  {
    hide MutexRule, LogRule, ListRule, NodeRule, JoinedRule, SocketRule, WakeRule, LateRule, MissedRule, MainStep;
    MainIsFirst(s);
    StoreIdEffect(s);
    StoreIdKeepsListInv(s);
    StoreIdKeepsNodeInv(s);
    StoreIdKeepsJoinedInv(s);
    StoreIdKeepsWakeInv(s);
    StoreIdKeepsMissedInv(s);
  }

  lemma JoinerControlKeepsInv(s: State)
    requires Inv(s)
    requires JoinerEnabled(s)
    requires !(s.joiner.Join? && AnyCompleted(s))
    requires !(s.joiner.CloseAll? && FirstOpen(s.list, s.nodes) < |s.list|)
    ensures Inv(JoinerStep(s))
  {
    hide MutexRule, LogRule, ListRule, NodeRule, JoinedRule, SocketRule, WakeRule, LateRule, MissedRule;
    JoinerControlKeepsMutexInv(s);
    JoinerControlKeepsWakeInv(s);
    JoinerControlKeepsLateInv(s);
    JoinerControlKeepsMissedInv(s);
  }

  lemma JoinOneKeepsInv(s: State)
    requires Inv(s)
    requires JoinerEnabled(s) && s.joiner.Join? && AnyCompleted(s)
    ensures Inv(JoinFirstCompleted(s))
  {
    hide MutexRule, LogRule, ListRule, NodeRule, JoinedRule, SocketRule, WakeRule, LateRule, MissedRule;
    JoinOneKeepsListInv(s);
    JoinOneKeepsNodeInv(s);
    JoinOneKeepsJoinedInv(s);
    JoinOneKeepsSocketInv(s);
    JoinOneKeepsWakeInv(s);
    JoinOneKeepsLateInv(s);
    JoinOneKeepsMissedInv(s);
  }

  lemma CloseOneKeepsInv(s: State)
    requires Inv(s)
    requires s.joiner.CloseAll? && FirstOpen(s.list, s.nodes) < |s.list|
    ensures Inv(CloseFirstOpen(s))
  {
    hide MutexRule, LogRule, ListRule, NodeRule, JoinedRule, SocketRule, WakeRule, LateRule, MissedRule;
    CloseOneKeepsListInv(s);
    CloseOneKeepsNodeInv(s);
    CloseOneKeepsSocketInv(s);
    CloseOneKeepsWakeInv(s);
    CloseOneKeepsLateInv(s);
    CloseOneKeepsMissedInv(s);
  }

  lemma ClientControlKeepsInv(s: State, c: Conn)
    requires Inv(s)
    requires ClientEnabled(s, c)
    requires !InLoop(s.clients[c]) && !s.clients[c].Closing? && !s.clients[c].Completing?
    ensures Inv(ClientStep(s, c))
  {
    hide MutexRule, LogRule, ListRule, NodeRule, JoinedRule, SocketRule, WakeRule, LateRule, MissedRule;
    ClientControlKeepsMutexInv(s, c);
    ClientControlKeepsLogInv(s, c);
    ClientControlKeepsListInv(s, c);
    ClientControlKeepsNodeInv(s, c);
    ClientControlKeepsJoinedInv(s, c);
    ClientControlKeepsWakeInv(s, c);
    ClientControlKeepsLateInv(s, c);
    ClientControlKeepsMissedInv(s, c);
  }

  lemma OwnNodeKeepsInv(s: State, c: Conn)
    requires Inv(s)
    requires c in s.clients && (s.clients[c].Closing? || s.clients[c].Completing?)
    ensures Inv(ClientStep(s, c))
  {
    hide MutexRule, LogRule, ListRule, NodeRule, JoinedRule, SocketRule, WakeRule, LateRule, MissedRule, ClientStep;
    ClientInList(s, c);
    OwnNodeKeepsLogInv(s, c);
    OwnNodeKeepsListInv(s, c);
    OwnNodeKeepsNodeInv(s, c);
    OwnNodeKeepsSocketInv(s, c);
    OwnNodeKeepsJoinedInv(s, c);
    OwnNodeKeepsLateInv(s, c);
    OwnNodeKeepsMissedInv(s, c);
  }

  lemma MainKeepsInv(s: State, ok: bool, c: Conn)
    requires Inv(s) && MainEnabled(s, ok, c)
    ensures Inv(MainStep(s, ok, c))
  {
    hide Inv;
    if s.main.Allocating? && ok {
      InsertKeepsInv(s);
    } else if s.main.Inserted? && ok {
      SpawnKeepsInv(s);
    } else if s.main.Inserted? {
      RemoveHeadKeepsInv(s);
    } else if s.main.Spawned? {
      StoreIdKeepsInv(s);
    } else {
      MainControlKeepsInv(s, ok, c);
    }
  }

  lemma JoinerKeepsInv(s: State)
    requires Inv(s) && JoinerEnabled(s)
    ensures Inv(JoinerStep(s))
  {
    hide Inv, JoinerMove, FirstCompleted, FirstOpen, JoinFirstCompleted, CloseFirstOpen;
    if s.joiner.Join? && AnyCompleted(s) {
      JoinOneKeepsInv(s);
    } else if s.joiner.CloseAll? && FirstOpen(s.list, s.nodes) < |s.list| {
      CloseOneKeepsInv(s);
    } else {
      JoinerControlKeepsInv(s);
    }
  }

  /** A client goes on in its receive loop, or leaves it; one that was missed leaves it through its peer. */
  ghost predicate LoopMove(s: State, c: Conn, pc: ClientPc, logOwner: Option<Conn>, ended: set<Conn>) {
    && c in s.clients && InLoop(s.clients[c]) && (InLoop(pc) || pc.WantsMutex?)
    && (ended == s.ended || (pc.WantsMutex? && ended == s.ended + {c}))
    && (pc.WantsMutex? ==> c in ended || c !in s.missed)
    && (logOwner == Some(c) <==> pc.HoldsLog?)
    && (logOwner == s.logOwner || (logOwner.None? && s.logOwner == Some(c)) ||
        (logOwner == Some(c) && s.logOwner.None?))
  }

  function Moved(s: State, c: Conn, pc: ClientPc, logOwner: Option<Conn>, ended: set<Conn>): State {
    s.(clients := s.clients[c := pc], logOwner := logOwner, ended := ended)
  }

  lemma LoopMoveKeepsMutexInv(s: State, c: Conn, pc: ClientPc, logOwner: Option<Conn>, ended: set<Conn>)
    requires MutexInv(s) && LogInv(s) && LoopMove(s, c, pc, logOwner, ended)
    ensures MutexInv(Moved(s, c, pc, logOwner, ended)) && LogInv(Moved(s, c, pc, logOwner, ended))
  {
  }

  lemma LoopMoveKeepsListInv(s: State, c: Conn, pc: ClientPc, logOwner: Option<Conn>, ended: set<Conn>)
    requires ListInv(s) && JoinedInv(s) && LoopMove(s, c, pc, logOwner, ended)
    ensures ListInv(Moved(s, c, pc, logOwner, ended)) && JoinedInv(Moved(s, c, pc, logOwner, ended))
  {
    hide ListRule;
    if s.main.Spawned? {
      StillInLoop(s, c, pc);
    }
    ListByKeys(s.list, s.nodes, s.clients, s.joined, s.main, s.accepted, s.nodes, s.clients[c := pc]);
  }

  lemma StillInLoop(s: State, c: Conn, pc: ClientPc)
    requires ListInv(s) && (InLoop(pc) || pc.WantsMutex?) && s.main.Spawned?
    ensures s.main.c in s.clients[c := pc]
    ensures var p := s.clients[c := pc][s.main.c]; InLoop(p) || p.WantsMutex?
  {
  }

  lemma LoopMoveKeepsNodeInv(s: State, c: Conn, pc: ClientPc, logOwner: Option<Conn>, ended: set<Conn>)
    requires NodeInv(s) && WakeInv(s) && LoopMove(s, c, pc, logOwner, ended)
    ensures NodeInv(Moved(s, c, pc, logOwner, ended)) && WakeInv(Moved(s, c, pc, logOwner, ended))
  {
  }

  lemma LoopMoveKeepsMissedInv(s: State, c: Conn, pc: ClientPc, logOwner: Option<Conn>, ended: set<Conn>)
    requires LateInv(s) && MissedInv(s) && LoopMove(s, c, pc, logOwner, ended)
    ensures LateInv(Moved(s, c, pc, logOwner, ended)) && MissedInv(Moved(s, c, pc, logOwner, ended))
  {
  }

  lemma LoopMoveKeepsInv(s: State, c: Conn, pc: ClientPc, logOwner: Option<Conn>, ended: set<Conn>)
    requires Inv(s) && LoopMove(s, c, pc, logOwner, ended)
    ensures Inv(Moved(s, c, pc, logOwner, ended))
  {
    hide MutexRule, LogRule, ListRule, NodeRule, JoinedRule, WakeRule, LateRule, MissedRule, LoopMove;
    LoopMoveKeepsMutexInv(s, c, pc, logOwner, ended);
    LoopMoveKeepsListInv(s, c, pc, logOwner, ended);
    LoopMoveKeepsNodeInv(s, c, pc, logOwner, ended);
    LoopMoveKeepsMissedInv(s, c, pc, logOwner, ended);
  }

  lemma ClientInLoopKeepsInv(s: State, c: Conn)
    requires Inv(s) && ClientEnabled(s, c) && InLoop(s.clients[c])
    ensures Inv(ClientStep(s, c))
  {
    hide MutexRule, ListRule, NodeRule, JoinedRule, SocketRule, WakeRule, LateRule;
    var s' := ClientStep(s, c);
    LoopMoveKeepsInv(s, c, s'.clients[c], s'.logOwner, s.ended);
  }

  lemma LeaveLoopKeepsInv(s: State, c: Conn)
    requires Inv(s) && c in s.clients && s.clients[c].Serving?
    ensures Inv(LeaveLoop(s, c))
  {
    hide MutexRule, ListRule, NodeRule, JoinedRule, SocketRule, WakeRule, LateRule, MissedRule;
    LoopMoveKeepsInv(s, c, WantsMutex, s.logOwner, s.ended + {c});
  }

  lemma PeerSentKeepsInv(s: State, c: Conn, packets: nat)
    requires Inv(s) && c in s.clients && s.clients[c].Serving?
    ensures Inv(PeerSent(s, c, packets))
  {
    hide MutexRule, ListRule, NodeRule, JoinedRule, SocketRule, WakeRule, LateRule, MissedRule, LeaveLoop;
    if packets > 0 {
      LoopMoveKeepsInv(s, c, WantsLog(packets), s.logOwner, s.ended);
    } else if !s.running {
      LeaveLoopKeepsInv(s, c);
    }
  }

  lemma PeerTookKeepsInv(s: State, c: Conn, ok: bool)
    requires Inv(s) && c in s.clients && s.clients[c].HoldsLog?
    ensures Inv(PeerTook(s, c, ok))
  {
    hide MutexRule, ListRule, NodeRule, JoinedRule, SocketRule, WakeRule, LateRule, MissedRule;
    var s' := PeerTook(s, c, ok);
    LoopMoveKeepsInv(s, c, s'.clients[c], None, s'.ended);
  }

  lemma ClientKeepsInv(s: State, c: Conn)
    requires Inv(s) && ClientEnabled(s, c)
    ensures Inv(ClientStep(s, c))
  {
    hide Inv, ClientStep;
    if InLoop(s.clients[c]) {
      ClientInLoopKeepsInv(s, c);
    } else if s.clients[c].Closing? || s.clients[c].Completing? {
      OwnNodeKeepsInv(s, c);
    } else {
      ClientControlKeepsInv(s, c);
    }
  }

  lemma FlagAndSpuriousKeepInv(s: State)
    requires Inv(s)
    ensures Inv(s.(running := false)) && Inv(s.(joiner := Wake(s.joiner)))
  {
    hide ListRule, NodeRule, JoinedRule, SocketRule;
  }

  lemma StepKeepsInv(s: State, a: Action)
    requires Inv(s) && Enabled(s, a)
    ensures Inv(Next(s, a))
  {
    hide Inv, MainStep, JoinerStep, ClientStep, LeaveLoop, PeerSent, PeerTook;
    match a
    case StopFlag => FlagAndSpuriousKeepInv(s);
    case SpuriousWake => FlagAndSpuriousKeepInv(s);
    case Main(ok, c) => MainKeepsInv(s, ok, c);
    case Joiner => JoinerKeepsInv(s);
    case PeerEnds(c) => LeaveLoopKeepsInv(s, c);
    case PeerSends(c, packets) => PeerSentKeepsInv(s, c, packets);
    case PeerTakes(c, ok) => PeerTookKeepsInv(s, c, ok);
    case Client(c) => ClientKeepsInv(s, c);
  }

  lemma InitInv()
    ensures Inv(INIT)
  {
  }

  lemma {:induction false} RunKeepsInv(s: State, actions: seq<Action>)
    requires Inv(s)
    ensures Inv(Run(s, actions))
    decreases |actions|
  {
    hide Inv, Next;
    if actions == [] {
    } else {
      if Enabled(s, actions[0]) {
        StepKeepsInv(s, actions[0]);
        RunKeepsInv(Next(s, actions[0]), actions[1..]);
      } else {
        RunKeepsInv(s, actions[1..]);
      }
    }
  }
}
