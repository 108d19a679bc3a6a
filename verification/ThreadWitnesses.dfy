/** Runs that end where one might not expect it: with a thread not joined, and with a server that hangs. */
module ThreadWitnesses {
  import opened ThreadProtocol
  import opened ThreadProofs
  import opened ThreadTheorems

  lemma RunOne(s: State, a: Action, rest: seq<Action>)
    requires Enabled(s, a)
    ensures Run(s, [a] + rest) == Run(Next(s, a), rest)
  {
    hide Next, Enabled;
    assert ([a] + rest)[1..] == rest;
  }

  lemma {:induction false} RunAppend(s: State, a: seq<Action>, b: seq<Action>)
    ensures Run(s, a + b) == Run(Run(s, a), b)
    decreases |a|
  {
    if a == [] {
      assert a + b == b;
    } else {
      assert (a + b)[0] == a[0] && (a + b)[1..] == a[1..] + b;
      RunAppend(if Enabled(s, a[0]) then Next(s, a[0]) else s, a[1..], b);
    }
  }

  /** The run so far ends in s, and b continues it to s'. */
  lemma ThenRun(a: seq<Action>, s: State, b: seq<Action>, s': State)
    requires Run(INIT, a) == s && Run(s, b) == s'
    ensures Run(INIT, a + b) == s'
  {
    hide Run;
    RunAppend(INIT, a, b);
  }

  /** The contract of FirstCompleted leaves it no choice. */
  lemma FirstCompletedIs(list: seq<Conn>, nodes: map<Conn, Node>, k: nat)
    requires k <= |list| && (k < |list| ==> list[k] in nodes && nodes[list[k]].completed)
    requires forall i :: 0 <= i < k ==> !(list[i] in nodes && nodes[list[i]].completed)
    ensures FirstCompleted(list, nodes) == k
  {
    hide FirstCompleted;
  }

  const M := Main(true, 0)
  const CREATE: seq<Action> := [M, M] + [M] + [M] + [M]

  lemma Lists(s: State, c: Conn)
    requires s.main == Accepted(c) && s.owner.Nobody?
    ensures Run(s, [M, M]) ==
            s.(main := Inserted(c), owner := MainThread, list := [c] + s.list,
               nodes := s.nodes[c := Node(0, false, true)])
  {
    RunOne(s, M, [M]);
    assert [M][1..] == [];
  }

  lemma Spawns(s: State, c: Conn)
    requires s.main == Inserted(c) && s.owner.MainThread?
    ensures Run(s, [M]) ==
            s.(main := Spawned(c), clients := s.clients[c := Serving],
               missed := if PastClosePass(s.joiner) then s.missed + {c} else s.missed,
               late := if s.joiner.Gone? then s.late + {c} else s.late)
  {
    hide PastClosePass, JoinerStep, ClientStep;
    assert [M][1..] == [];
  }

  lemma StoresId(s: State, c: Conn)
    requires s.main == Spawned(c) && s.owner.MainThread? && c in s.nodes
    ensures Run(s, [M]) == s.(main := Stored, nodes := s.nodes[c := s.nodes[c].(threadId := IdOf(c))])
  {
    hide JoinerStep, ClientStep;
    assert [M][1..] == [];
  }

  lemma Unlocks(s: State)
    requires s.main == Stored && s.owner.MainThread?
    ensures Run(s, [M]) == s.(main := LoopHead, owner := Nobody)
  {
    hide JoinerStep, ClientStep;
    assert [M][1..] == [];
  }

  /** An undisturbed call of create_client_communication_thread. */
  lemma Creates(s: State, c: Conn)
    requires s.main == Accepted(c) && s.owner.Nobody?
    ensures Run(s, CREATE) ==
            s.(main := LoopHead, list := [c] + s.list, clients := s.clients[c := Serving],
               nodes := s.nodes[c := Node(IdOf(c), false, true)],
               missed := if PastClosePass(s.joiner) then s.missed + {c} else s.missed,
               late := if s.joiner.Gone? then s.late + {c} else s.late)
  {
    hide Run, PastClosePass;
    Lists(s, c);
    Spawns(Run(s, [M, M]), c);
    StoresId(Run(Run(s, [M, M]), [M]), c);
    Unlocks(Run(Run(Run(s, [M, M]), [M]), [M]));
    RunAppend(s, [M, M], [M]);
    RunAppend(s, [M, M] + [M], [M]);
    RunAppend(s, [M, M] + [M] + [M], [M]);
  }

  // ---------------------------------------------------------------- the late client

  /** accept has returned connection 7, and then the process is told to stop. */
  const LATE_0 := INIT.(main := Accepted(7), accepted := {7}, running := false)
  const LATE_1 := LATE_0.(joiner := ForceStart)
  const LATE_2 := LATE_0.(joiner := ForceOuter, owner := JoinerThread)
  const LATE_3 := LATE_0.(joiner := Gone)
  const LATE_4 := LATE_3.(main := LoopHead, list := [7], nodes := map[7 := Node(IdOf(7), false, true)],
                          clients := map[7 := Serving], missed := {7}, late := {7})
  const LATE_5 := LATE_4.(main := Waking)
  const LATE_6 := LATE_4.(main := WakeUnlock, owner := MainThread)
  const LATE_7 := LATE_4.(main := MainPc.Done)

  lemma Late0()
    ensures Run(INIT, [Main(true, 7), Main(true, 7), StopFlag]) == LATE_0
  {
    hide JoinerStep, ClientStep;
    RunOne(INIT, Main(true, 7), [Main(true, 7), StopFlag]);
    RunOne(INIT.(main := AtAccept), Main(true, 7), [StopFlag]);
    assert [StopFlag][1..] == [];
  }

  lemma Late1()
    ensures Run(LATE_0, [Joiner, Joiner, Joiner]) == LATE_1
  {
    hide MainStep, ClientStep;
    RunOne(LATE_0, Joiner, [Joiner, Joiner]);
    RunOne(LATE_0.(joiner := Outer, owner := JoinerThread), Joiner, [Joiner]);
    assert [Joiner][1..] == [];
  }

  lemma Late2()
    ensures Run(LATE_1, [Joiner, Joiner]) == LATE_2
  {
    hide MainStep, ClientStep;
    RunOne(LATE_1, Joiner, [Joiner]);
    assert [Joiner][1..] == [];
  }

  lemma Late3()
    ensures Run(LATE_2, [Joiner, Joiner]) == LATE_3
  {
    hide MainStep, ClientStep;
    RunOne(LATE_2, Joiner, [Joiner]);
    assert [Joiner][1..] == [];
  }

  lemma Late4()
    ensures Run(LATE_3, CREATE) == LATE_4
  {
    Creates(LATE_3, 7);
    assert map[][7 := Node(IdOf(7), false, true)] == map[7 := Node(IdOf(7), false, true)];
  }

  lemma Late5()
    ensures Run(LATE_4, [M, M]) == LATE_5
  {
    hide JoinerStep, ClientStep;
    RunOne(LATE_4, M, [M]);
    assert [M][1..] == [];
  }

  lemma Late6()
    ensures Run(LATE_5, [M, M]) == LATE_6
  {
    hide JoinerStep, ClientStep;
    RunOne(LATE_5, M, [M]);
    assert [M][1..] == [];
  }

  lemma Late7()
    ensures Run(LATE_6, [M, M]) == LATE_7
  {
    hide JoinerStep, ClientStep;
    RunOne(LATE_6, M, [M]);
    assert [M][1..] == [];
  }

  const LATE_ACTIONS := [Main(true, 7), Main(true, 7), StopFlag] + [Joiner, Joiner, Joiner] + [Joiner, Joiner]
                        + [Joiner, Joiner] + CREATE + [M, M] + [M, M] + [M, M]

  /**
    "Every created thread is joined before the server is done" is false: the flag may fall after
    accept has returned, and the joiner find an empty list and go before the client is listed.
   */
  lemma LateClientIsNotJoined()
    ensures var s := Run(INIT, LATE_ACTIONS);
            s.main.Done? && s.late == {7} && 7 in s.clients && s.joined[7] == 0
  {
    hide Run, Next, Enabled;
    var j, m := [Joiner, Joiner], [M, M];
    var a := [Main(true, 7), Main(true, 7), StopFlag];
    Late0();
    Late1(); ThenRun(a, LATE_0, [Joiner, Joiner, Joiner], LATE_1); a := a + [Joiner, Joiner, Joiner];
    Late2(); ThenRun(a, LATE_1, j, LATE_2); a := a + j;
    Late3(); ThenRun(a, LATE_2, j, LATE_3); a := a + j;
    Late4(); ThenRun(a, LATE_3, CREATE, LATE_4); a := a + CREATE;
    Late5(); ThenRun(a, LATE_4, m, LATE_5); a := a + m;
    Late6(); ThenRun(a, LATE_5, m, LATE_6); a := a + m;
    Late7(); ThenRun(a, LATE_6, m, LATE_7);
  }

  // ---------------------------------------------------------------- the server that hangs

  /** Client 1 is served; accept has returned connection 2, and then the process is told to stop. */
  const HANG_0 := INIT.(main := Accepted(1), accepted := {1})
  const HANG_1 := HANG_0.(main := LoopHead, list := [1], nodes := map[1 := Node(IdOf(1), false, true)],
                          clients := map[1 := Serving])
  const HANG_2 := HANG_1.(main := Accepted(2), accepted := {1, 2}, running := false)
  const HANG_3 := HANG_2.(joiner := ForceStart)
  // The close pass closes the socket of client 1, the only one listed.
  const HANG_4 := HANG_2.(joiner := CloseAll, owner := JoinerThread, nodes := map[1 := Node(IdOf(1), false, false)],
                          closed := multiset{1})
  const HANG_5 := HANG_4.(joiner := Asleep(true), owner := Nobody)
  // Client 2 is created, and main proceeds to join the joiner.
  const HANG_6 := HANG_5.(main := LoopHead, list := [2, 1], clients := map[1 := Serving, 2 := Serving],
                          nodes := map[1 := Node(IdOf(1), false, false), 2 := Node(IdOf(2), false, true)],
                          missed := {2})
  const HANG_7 := HANG_6.(main := Waking)
  const HANG_8 := HANG_6.(main := JoiningJoiner, joiner := Reacquire(true))
  // Client 1 ends and is joined.
  const HANG_9 := HANG_8.(clients := map[1 := Completing, 2 := Serving], owner := ClientThread(1))
  const HANG_10 := HANG_9.(clients := map[1 := Unlocking, 2 := Serving],
                           nodes := map[1 := Node(IdOf(1), true, false), 2 := Node(IdOf(2), false, true)])
  const HANG_11 := HANG_10.(clients := map[1 := Exited, 2 := Serving], owner := Nobody)
  const HANG_12 := HANG_11.(joiner := Join(true), owner := JoinerThread)
  const HANG_13 := HANG_12.(joiner := ForceOuter, list := [2], nodes := map[2 := Node(IdOf(2), false, true)],
                            joined := multiset{1}, freed := multiset{1})
  const HANG_14 := HANG_13.(joiner := Asleep(true), owner := Nobody)

  lemma Hang0()
    ensures Run(INIT, [Main(true, 1), Main(true, 1)]) == HANG_0
  {
    hide JoinerStep, ClientStep;
    RunOne(INIT, Main(true, 1), [Main(true, 1)]);
    assert [Main(true, 1)][1..] == [];
  }

  lemma Hang1()
    ensures Run(HANG_0, CREATE) == HANG_1
  {
    Creates(HANG_0, 1);
    assert map[][1 := Node(IdOf(1), false, true)] == map[1 := Node(IdOf(1), false, true)];
  }

  lemma Hang2()
    ensures Run(HANG_1, [Main(true, 2), Main(true, 2), StopFlag]) == HANG_2
  {
    hide JoinerStep, ClientStep;
    RunOne(HANG_1, Main(true, 2), [Main(true, 2), StopFlag]);
    RunOne(HANG_1.(main := AtAccept), Main(true, 2), [StopFlag]);
    assert [StopFlag][1..] == [];
  }

  lemma Hang3()
    ensures Run(HANG_2, [Joiner, Joiner]) == HANG_2.(joiner := Unlock, owner := JoinerThread)
  {
    hide MainStep, ClientStep;
    RunOne(HANG_2, Joiner, [Joiner]);
    assert [Joiner][1..] == [];
  }

  lemma Hang3b()
    ensures Run(HANG_2.(joiner := Unlock, owner := JoinerThread), [Joiner]) == HANG_3
  {
    hide MainStep, ClientStep;
    assert [Joiner][1..] == [];
  }

  lemma Hang4()
    ensures Run(HANG_3, [Joiner]) == HANG_2.(joiner := CloseAll, owner := JoinerThread)
  {
    hide MainStep, ClientStep;
    assert [Joiner][1..] == [];
  }

  lemma Hang4b()
    ensures Run(HANG_2.(joiner := CloseAll, owner := JoinerThread), [Joiner]) == HANG_4
  {
    hide MainStep, ClientStep, JoinerMove, JoinFirstCompleted;
    assert [Joiner][1..] == [];
  }

  lemma Hang5()
    ensures Run(HANG_4, [Joiner]) == HANG_4.(joiner := ForceOuter)
  {
    hide MainStep, ClientStep;
    assert [Joiner][1..] == [];
  }

  lemma Hang5b()
    ensures Run(HANG_4.(joiner := ForceOuter), [Joiner, Joiner]) == HANG_5
  {
    hide FirstCompleted, MainStep, ClientStep;
    FirstCompletedIs(HANG_4.list, HANG_4.nodes, 1);
    RunOne(HANG_4.(joiner := ForceOuter), Joiner, [Joiner]);
    assert [Joiner][1..] == [];
  }

  lemma Hang6()
    ensures Run(HANG_5, CREATE) == HANG_6
  {
    Creates(HANG_5, 2);
    assert [2] + [1] == [2, 1];
    assert HANG_5.clients[2 := Serving] == HANG_6.clients;
    assert HANG_5.nodes[2 := Node(IdOf(2), false, true)] == HANG_6.nodes;
  }

  lemma Hang7()
    ensures Run(HANG_6, [M, M]) == HANG_7
  {
    hide JoinerStep, ClientStep;
    RunOne(HANG_6, M, [M]);
    assert [M][1..] == [];
  }

  lemma Hang8()
    ensures Run(HANG_7, [M, M]) == HANG_8.(main := WakeUnlock, owner := MainThread)
  {
    hide JoinerStep, ClientStep;
    RunOne(HANG_7, M, [M]);
    assert [M][1..] == [];
  }

  lemma Hang8b()
    ensures Run(HANG_8.(main := WakeUnlock, owner := MainThread), [M]) == HANG_8
  {
    hide JoinerStep, ClientStep;
    assert [M][1..] == [];
  }

  lemma Hang9()
    ensures Run(HANG_8, [Client(1), Client(1), Client(1)]) == HANG_9
  {
    hide MainStep, JoinerStep;
    RunOne(HANG_8, Client(1), [Client(1), Client(1)]);
    RunOne(HANG_8.(clients := map[1 := WantsMutex, 2 := Serving]), Client(1), [Client(1)]);
    assert [Client(1)][1..] == [];
  }

  lemma Hang10()
    ensures Run(HANG_9, [Client(1), Client(1)]) == HANG_10
  {
    hide MainStep, JoinerStep;
    RunOne(HANG_9, Client(1), [Client(1)]);
    assert [Client(1)][1..] == [];
  }

  lemma Hang11()
    ensures Run(HANG_10, [Client(1), Client(1)]) == HANG_11
  {
    hide MainStep, JoinerStep;
    RunOne(HANG_10, Client(1), [Client(1)]);
    assert [Client(1)][1..] == [];
  }

  lemma Hang12()
    ensures Run(HANG_11, [Joiner]) == HANG_11.(joiner := ForceInner, owner := JoinerThread)
  {
    hide FirstCompleted, MainStep, ClientStep, JoinFirstCompleted, CloseFirstOpen;
    assert [Joiner][1..] == [];
  }

  lemma Hang12b()
    ensures Run(HANG_11.(joiner := ForceInner, owner := JoinerThread), [Joiner]) == HANG_12
  {
    hide FirstCompleted, MainStep, ClientStep, JoinFirstCompleted, CloseFirstOpen;
    FirstCompletedIs(HANG_11.list, HANG_11.nodes, 1);
    assert [Joiner][1..] == [];
  }

  lemma JoinsClientOne()
    ensures AnyCompleted(HANG_12) && JoinFirstCompleted(HANG_12) == HANG_13.(joiner := Join(true))
  {
    hide FirstCompleted;
    FirstCompletedIs(HANG_12.list, HANG_12.nodes, 1);
    assert [2, 1][..1] + [2, 1][1 + 1..] == [2];
    assert HANG_12.nodes - {1} == HANG_13.nodes;
  }

  lemma Hang13()
    ensures Run(HANG_12, [Joiner]) == HANG_13.(joiner := Join(true))
  {
    hide FirstCompleted, MainStep, ClientStep, JoinerMove, JoinFirstCompleted, CloseFirstOpen;
    FirstCompletedIs(HANG_12.list, HANG_12.nodes, 1);
    JoinsClientOne();
    assert [Joiner][1..] == [];
  }

  lemma Hang13b()
    ensures Run(HANG_13.(joiner := Join(true)), [Joiner]) == HANG_13
  {
    hide FirstCompleted, MainStep, ClientStep, JoinFirstCompleted, CloseFirstOpen;
    FirstCompletedIs(HANG_13.list, HANG_13.nodes, 1);
    assert [Joiner][1..] == [];
  }

  lemma Hang14()
    ensures Run(HANG_13, [Joiner]) == HANG_13.(joiner := ForceInner)
  {
    hide FirstCompleted, MainStep, ClientStep, JoinFirstCompleted, CloseFirstOpen;
    assert [Joiner][1..] == [];
  }

  lemma Hang14b()
    ensures Run(HANG_13.(joiner := ForceInner), [Joiner]) == HANG_14
  {
    hide FirstCompleted, MainStep, ClientStep, JoinFirstCompleted, CloseFirstOpen;
    FirstCompletedIs(HANG_13.list, HANG_13.nodes, 1);
    assert [Joiner][1..] == [];
  }

  const HANG_ACTIONS :=
    [Main(true, 1), Main(true, 1)] + CREATE + [Main(true, 2), Main(true, 2), StopFlag]
    + [Joiner, Joiner] + [Joiner] + [Joiner] + [Joiner] + [Joiner] + [Joiner, Joiner] + CREATE + [M, M] + [M, M] + [M]
    + [Client(1), Client(1), Client(1)] + [Client(1), Client(1)] + [Client(1), Client(1)]
    + [Joiner] + [Joiner] + [Joiner] + [Joiner] + [Joiner] + [Joiner]

  lemma HangRun()
    ensures Run(INIT, HANG_ACTIONS) == HANG_14
  {
    hide Run, Next, Enabled;
    var j, m, c := [Joiner, Joiner], [M, M], [Client(1), Client(1)];
    var a := [Main(true, 1), Main(true, 1)];
    Hang0();
    Hang1(); ThenRun(a, HANG_0, CREATE, HANG_1); a := a + CREATE;
    Hang2(); ThenRun(a, HANG_1, [Main(true, 2), Main(true, 2), StopFlag], HANG_2);
    a := a + [Main(true, 2), Main(true, 2), StopFlag];
    Hang3(); ThenRun(a, HANG_2, j, HANG_2.(joiner := Unlock, owner := JoinerThread)); a := a + j;
    Hang3b(); ThenRun(a, HANG_2.(joiner := Unlock, owner := JoinerThread), [Joiner], HANG_3); a := a + [Joiner];
    Hang4(); ThenRun(a, HANG_3, [Joiner], HANG_2.(joiner := CloseAll, owner := JoinerThread)); a := a + [Joiner];
    Hang4b(); ThenRun(a, HANG_2.(joiner := CloseAll, owner := JoinerThread), [Joiner], HANG_4); a := a + [Joiner];
    Hang5(); ThenRun(a, HANG_4, [Joiner], HANG_4.(joiner := ForceOuter)); a := a + [Joiner];
    Hang5b(); ThenRun(a, HANG_4.(joiner := ForceOuter), j, HANG_5); a := a + j;
    Hang6(); ThenRun(a, HANG_5, CREATE, HANG_6); a := a + CREATE;
    Hang7(); ThenRun(a, HANG_6, m, HANG_7); a := a + m;
    Hang8(); ThenRun(a, HANG_7, m, HANG_8.(main := WakeUnlock, owner := MainThread)); a := a + m;
    Hang8b(); ThenRun(a, HANG_8.(main := WakeUnlock, owner := MainThread), [M], HANG_8); a := a + [M];
    Hang9(); ThenRun(a, HANG_8, [Client(1), Client(1), Client(1)], HANG_9); a := a + [Client(1), Client(1), Client(1)];
    Hang10(); ThenRun(a, HANG_9, c, HANG_10); a := a + c;
    Hang11(); ThenRun(a, HANG_10, c, HANG_11); a := a + c;
    Hang12(); ThenRun(a, HANG_11, [Joiner], HANG_11.(joiner := ForceInner, owner := JoinerThread)); a := a + [Joiner];
    Hang12b(); ThenRun(a, HANG_11.(joiner := ForceInner, owner := JoinerThread), [Joiner], HANG_12); a := a + [Joiner];
    Hang13(); ThenRun(a, HANG_12, [Joiner], HANG_13.(joiner := Join(true))); a := a + [Joiner];
    Hang13b(); ThenRun(a, HANG_13.(joiner := Join(true)), [Joiner], HANG_13); a := a + [Joiner];
    Hang14(); ThenRun(a, HANG_13, [Joiner], HANG_13.(joiner := ForceInner)); a := a + [Joiner];
    Hang14b(); ThenRun(a, HANG_13.(joiner := ForceInner), [Joiner], HANG_14);
  }

  /**
    "Once told to stop, the server ends" is false: a client listed after the close pass waits in
    recv on a socket nobody closes, the joiner waits for that client, and main for the joiner.
   */
  lemma ServerCanHang()
    ensures var s := Run(INIT, HANG_ACTIONS);
            && s.main.JoiningJoiner? && Stuck(s)
            && s.late == {} && s.list == [2] && 2 in s.clients && s.clients[2].Serving? && s.closed[2] == 0
  {
    hide Run, Stuck;
    InitInv();
    RunKeepsInv(INIT, HANG_ACTIONS);
    HangRun();
    StuckExactly(HANG_14);
  }
}
