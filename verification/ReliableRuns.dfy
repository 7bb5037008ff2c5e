/** Whole runs of the two programs, arrivals taken from what the other side sent, as paths of the joint system. */
module ReliableRuns {
  import opened Bytes
  import opened Packets
  import opened FileChunks
  import opened ReliableServer
  import opened ReliableClient
  import opened ReliableSystem
  import opened ReliableTheorems
  import Sha1Spec

  // ---- The moves of each program ----

  /** What the server's transfer function does over a script, move by move. */
  function ServerMoves(tx: Tx, window: nat, script: seq<(ReliableServer.Arrival, set<nat>)>, stopped: bool): seq<Event>
    requires tx.Bounds()
    decreases |script|
  {
    if tx.base == |tx.chunks| then
      if stopped then [ServerStop] else [CloseDown, CloseDown, CloseDown]
    else if script == [] then [ServerStop]
    else if script[0].0.Malformed? then [FillWindow, Listen(Malformed)]
    else
      [FillWindow, Listen(script[0].0), CheckTimers(script[0].1)] +
      ServerMoves(Turn(tx, window, script[0].0, script[0].1), window, script[1..], stopped)
  }

  /** Likewise for the client's receive loop. */
  function ClientMoves(rx: Rx, window: u32, script: seq<ReliableClient.Arrival>): seq<Event>
    decreases |script|
  {
    if rx.status != Receiving then []
    else if script == [] || script[0].Bad? then [ClientStop]
    else [Deliver(script[0].p)] + ClientMoves(Receive(rx, window, script[0].p), window, script[1..])
  }

  datatype Side = Server | Client

  predicate MadeBy(side: Side, e: Event) {
    match e
    case Deliver(_) => side == Client
    case ClientStop => side == Client
    case Idle => false
    case _ => side == Server
  }

  /** The moves of one side, in order. */
  function Moves(side: Side, es: seq<Event>): (ms: seq<Event>)
    ensures forall e :: e in ms ==> MadeBy(side, e)
  {
    if es == [] then []
    else if MadeBy(side, es[0]) then [es[0]] + Moves(side, es[1..])
    else Moves(side, es[1..])
  }

  /** A datagram arrives only after the other side has sent it, or from the authentication phase. */
  predicate Arrived(s: Sys, e: Event) {
    match e
    case Listen(a) => a.FromPeer? ==> a.p in s.rx.feedback || Stray(a.p)
    case Deliver(p) => p in s.tx.sent || Stray(p)
    case _ => true
  }

  ghost predicate Causal(cfg: Config, s: Sys, es: seq<Event>)
    requires s.tx.Bounds()
    decreases |es|
  {
    es != [] ==>
      Arrived(s, es[0]) && (BoundsKept(cfg, s, es[0]); Causal(cfg, Apply(cfg, s, es[0]), es[1..]))
  }

  // ---- Each program by itself ----

  /** The program that makes this move stands where it makes it. */
  predicate Ready(s: Sys, e: Event) {
    match e
    case FillWindow => s.phase == Filling && s.tx.base < |s.tx.chunks|
    case Listen(_) => s.phase == Listening
    case CheckTimers(_) => s.phase == Resending
    case CloseDown =>
      (s.phase == Filling && s.tx.base >= |s.tx.chunks|) || (s.phase.Closing? && s.phase.terminates < 3)
    case Deliver(_) => s.rx.status == Receiving
    case ClientStop => s.rx.status == Receiving
    case _ => true
  }

  lemma EnabledIff(s: Sys, e: Event)
    ensures Enabled(s, e) <==> Ready(s, e) && Arrived(s, e)
  {
  }

  ghost function After(cfg: Config, s: Sys, es: seq<Event>): (t: Sys)
    requires s.tx.Bounds()
    ensures t.tx.Bounds()
    decreases |es|
  {
    if es == [] then s
    else
      BoundsKept(cfg, s, es[0]);
      After(cfg, Apply(cfg, s, es[0]), es[1..])
  }

  ghost predicate AlwaysReady(cfg: Config, s: Sys, es: seq<Event>)
    requires s.tx.Bounds()
    decreases |es|
  {
    es != [] ==>
      Ready(s, es[0]) && (BoundsKept(cfg, s, es[0]); AlwaysReady(cfg, Apply(cfg, s, es[0]), es[1..]))
  }

  lemma {:induction false} MovesAppend(cfg: Config, s: Sys, es: seq<Event>, fs: seq<Event>)
    requires s.tx.Bounds()
    ensures After(cfg, s, es + fs) == After(cfg, After(cfg, s, es), fs)
    ensures AlwaysReady(cfg, s, es + fs) <==> AlwaysReady(cfg, s, es) && AlwaysReady(cfg, After(cfg, s, es), fs)
    decreases |es|
  {
    hide Apply, Ready;
    if es == [] {
      assert es + fs == fs;
    } else {
      BoundsKept(cfg, s, es[0]);
      MovesAppend(cfg, Apply(cfg, s, es[0]), es[1..], fs);
      assert (es + fs)[1..] == es[1..] + fs;
    }
  }

  lemma OneMove(cfg: Config, s: Sys, e: Event)
    requires s.tx.Bounds()
    ensures After(cfg, s, [e]) == Apply(cfg, s, e)
    ensures AlwaysReady(cfg, s, [e]) <==> Ready(s, e)
  {
    hide Apply, Ready;
    BoundsKept(cfg, s, e);
    assert [e][1..] == [];
  }

  lemma TwoMoves(cfg: Config, s: Sys, d: Event, e: Event)
    requires s.tx.Bounds()
    ensures Apply(cfg, s, d).tx.Bounds()
    ensures After(cfg, s, [d, e]) == Apply(cfg, Apply(cfg, s, d), e)
    ensures AlwaysReady(cfg, s, [d, e]) <==> Ready(s, d) && Ready(Apply(cfg, s, d), e)
  {
    hide Apply, Ready;
    OneMove(cfg, s, d);
    OneMove(cfg, After(cfg, s, [d]), e);
    MovesAppend(cfg, s, [d], [e]);
    assert [d] + [e] == [d, e];
  }

  lemma ThreeMoves(cfg: Config, s: Sys, d: Event, e: Event, f: Event)
    requires s.tx.Bounds()
    ensures Apply(cfg, s, d).tx.Bounds() && Apply(cfg, Apply(cfg, s, d), e).tx.Bounds()
    ensures After(cfg, s, [d, e, f]) == Apply(cfg, Apply(cfg, Apply(cfg, s, d), e), f)
    ensures AlwaysReady(cfg, s, [d, e, f]) <==>
      Ready(s, d) && Ready(Apply(cfg, s, d), e) && Ready(Apply(cfg, Apply(cfg, s, d), e), f)
  {
    hide Apply, Ready;
    TwoMoves(cfg, s, d, e);
    OneMove(cfg, After(cfg, s, [d, e]), f);
    MovesAppend(cfg, s, [d, e], [f]);
    assert [d, e] + [f] == [d, e, f];
  }

  /** How the server stands when its transfer function has returned. */
  function EndPhase(rc: Outcome): Phase {
    if rc == Sent then Closing(3) else Stopped
  }

  /** The server's moves are always possible for it, and they end where its transfer function does. */
  lemma {:induction false} ServerRuns(cfg: Config, s: Sys, script: seq<(ReliableServer.Arrival, set<nat>)>,
        stopped: bool)
    requires s.tx.Bounds() && s.phase == Filling
    ensures var ms := ServerMoves(s.tx, cfg.window, script, stopped);
      var (tx, rc) := Transfer(s.tx, cfg.window, Sha1Spec.Digest(cfg.file), script, stopped);
      AlwaysReady(cfg, s, ms) && After(cfg, s, ms) == s.(tx := tx, phase := EndPhase(rc))
    decreases |script|
  {
    hide Sha1Spec.Digest, Fill, OnArrival, ResendDue, AlwaysReady, After;
    if s.tx.base == |s.tx.chunks| {
      if stopped {
        OneMove(cfg, s, ServerStop);
      } else {
        var d := Terminate(Sha1Spec.Digest(cfg.file));
        ThreeMoves(cfg, s, CloseDown, CloseDown, CloseDown);
        assert s.tx.sent + [d] + [d] + [d] == s.tx.sent + [d, d, d];
      }
    } else if script == [] {
      OneMove(cfg, s, ServerStop);
    } else if script[0].0.Malformed? {
      TwoMoves(cfg, s, FillWindow, Listen(Malformed));
    } else {
      var (a, due) := script[0];
      ThreeMoves(cfg, s, FillWindow, Listen(a), CheckTimers(due));
      var t := s.(tx := Turn(s.tx, cfg.window, a, due));
      ServerRuns(cfg, t, script[1..], stopped);
      MovesAppend(cfg, s, [FillWindow, Listen(a), CheckTimers(due)],
                  ServerMoves(t.tx, cfg.window, script[1..], stopped));
    }
  }

  /** Likewise for the client. */
  lemma {:induction false} ClientRuns(cfg: Config, s: Sys, script: seq<ReliableClient.Arrival>)
    requires s.tx.Bounds()
    ensures var ms := ClientMoves(s.rx, cfg.receiverWindow, script);
      AlwaysReady(cfg, s, ms) && After(cfg, s, ms) == s.(rx := ReceiveAll(s.rx, cfg.receiverWindow, script))
    decreases |script|
  {
    hide Receive, AlwaysReady, After;
    if s.rx.status != Receiving {
      NoMoves(cfg, s);
    } else if script == [] || script[0].Bad? {
      OneMove(cfg, s, ClientStop);
    } else {
      var e := Deliver(script[0].p);
      OneMove(cfg, s, e);
      ClientRuns(cfg, Apply(cfg, s, e), script[1..]);
      MovesAppend(cfg, s, [e], ClientMoves(Apply(cfg, s, e).rx, cfg.receiverWindow, script[1..]));
    }
  }

  lemma NoMoves(cfg: Config, s: Sys)
    requires s.tx.Bounds()
    ensures AlwaysReady(cfg, s, []) && After(cfg, s, []) == s
  {
  }

  // ---- The two together ----

  predicate Agree(side: Side, s: Sys, t: Sys) {
    match side
    case Server => s.tx == t.tx && s.phase == t.phase
    case Client => s.rx == t.rx
  }

  lemma OwnMove(cfg: Config, side: Side, s: Sys, t: Sys, e: Event)
    requires s.tx.Bounds() && t.tx.Bounds() && Agree(side, s, t) && MadeBy(side, e)
    ensures Ready(s, e) <==> Ready(t, e)
    ensures Agree(side, Apply(cfg, s, e), Apply(cfg, t, e))
  {
    hide Fill, OnArrival, ResendDue, Receive, Sha1Spec.Digest;
  }

  lemma OthersMove(cfg: Config, side: Side, s: Sys, e: Event)
    requires s.tx.Bounds() && !MadeBy(side, e)
    ensures Agree(side, s, Apply(cfg, s, e))
  {
    hide Fill, OnArrival, ResendDue, Receive, Sha1Spec.Digest;
  }

  /** A program's own moves depend on its own state only. */
  lemma {:induction false} OwnMoves(cfg: Config, side: Side, s: Sys, t: Sys, ms: seq<Event>)
    requires s.tx.Bounds() && t.tx.Bounds() && Agree(side, s, t)
    requires forall e :: e in ms ==> MadeBy(side, e)
    ensures AlwaysReady(cfg, s, ms) <==> AlwaysReady(cfg, t, ms)
    ensures Agree(side, After(cfg, s, ms), After(cfg, t, ms))
    decreases |ms|
  {
    hide Apply, Ready, Agree;
    if ms != [] {
      BoundsKept(cfg, s, ms[0]);
      BoundsKept(cfg, t, ms[0]);
      OwnMove(cfg, side, s, t, ms[0]);
      OwnMoves(cfg, side, Apply(cfg, s, ms[0]), Apply(cfg, t, ms[0]), ms[1..]);
    }
  }

  /** After one event of a merged run, each side still has the rest of its own run before it. */
  lemma SideGoesOn(cfg: Config, side: Side, s: Sys, es: seq<Event>)
    requires s.tx.Bounds() && es != [] && AlwaysReady(cfg, s, Moves(side, es))
    ensures Apply(cfg, s, es[0]).tx.Bounds()
    ensures MadeBy(side, es[0]) ==> Ready(s, es[0])
    ensures AlwaysReady(cfg, Apply(cfg, s, es[0]), Moves(side, es[1..]))
    ensures Agree(side, After(cfg, s, Moves(side, es)), After(cfg, Apply(cfg, s, es[0]), Moves(side, es[1..])))
  {
    hide Apply, Ready;
    var e := es[0];
    BoundsKept(cfg, s, e);
    if MadeBy(side, e) {
      assert Moves(side, es)[1..] == Moves(side, es[1..]);
    } else {
      OthersMove(cfg, side, s, e);
      OwnMoves(cfg, side, s, Apply(cfg, s, e), Moves(side, es));
    }
  }

  /** A causal merge of moves that each program can make by itself is a path, ending where both programs end. */
  lemma {:induction false} MergeIsPath(cfg: Config, s: Sys, es: seq<Event>)
    requires s.tx.Bounds() && Causal(cfg, s, es)
    requires AlwaysReady(cfg, s, Moves(Server, es)) && AlwaysReady(cfg, s, Moves(Client, es))
    ensures Path(cfg, s, es, After(cfg, s, es))
    ensures Agree(Server, After(cfg, s, es), After(cfg, s, Moves(Server, es)))
    ensures Agree(Client, After(cfg, s, es), After(cfg, s, Moves(Client, es)))
    decreases |es|
  {
    hide Apply, Ready, Enabled, Arrived, AlwaysReady, Moves;
    if es != [] {
      SideGoesOn(cfg, Server, s, es);
      SideGoesOn(cfg, Client, s, es);
      EnabledIff(s, es[0]);
      SomeoneMoves(s, es[0]);
      MergeIsPath(cfg, Apply(cfg, s, es[0]), es[1..]);
    } else {
      assert Moves(Server, es) == Moves(Client, es) == [] by { NothingMoved(); }
    }
  }

  lemma SomeoneMoves(s: Sys, e: Event)
    requires MadeBy(Server, e) || MadeBy(Client, e) ==> Ready(s, e)
    ensures Ready(s, e)
  {
  }

  lemma NothingMoved()
    ensures forall side :: Moves(side, []) == []
  {
  }

  /**
   * Refinement: take a run of the server's transfer function and a run of the client's, over any scripts, merged in
   * any order in which arrivals come after what the other side sent. That is a path of the joint system, and it ends
   * in the states the two functions return.
   */
  lemma RunsArePath(cfg: Config, serverScript: seq<(ReliableServer.Arrival, set<nat>)>, stopped: bool,
        clientScript: seq<ReliableClient.Arrival>, es: seq<Event>) returns (t: Sys)
    requires Moves(Server, es) == ServerMoves(Init(cfg).tx, cfg.window, serverScript, stopped)
    requires Moves(Client, es) == ClientMoves(START, cfg.receiverWindow, clientScript)
    requires Causal(cfg, Init(cfg), es)
    ensures Path(cfg, Init(cfg), es, t)
    ensures var (tx, rc) := Transfer(Init(cfg).tx, cfg.window, Sha1Spec.Digest(cfg.file), serverScript, stopped);
      t.tx == tx && t.phase == EndPhase(rc)
    ensures t.rx == ReceiveAll(START, cfg.receiverWindow, clientScript)
  {
    hide Sha1Spec.Digest, AlwaysReady, After, Moves, ServerMoves, ClientMoves, Transfer, ReceiveAll, Causal, Path;
    var s := Init(cfg);
    ServerRuns(cfg, s, serverScript, stopped);
    ClientRuns(cfg, s, clientScript);
    MergeIsPath(cfg, s, es);
    t := After(cfg, s, es);
  }

  /**
   * So for every such pair of runs: the client never finds a wrong digest, has written a chunk prefix of the file
   * whatever it returns, and all of it if either side reports success.
   */
  lemma RunsAreSafe(cfg: Config, serverScript: seq<(ReliableServer.Arrival, set<nat>)>, stopped: bool,
        clientScript: seq<ReliableClient.Arrival>, es: seq<Event>)
    requires ChunkCount(cfg.file) < U32
    requires Moves(Server, es) == ServerMoves(Init(cfg).tx, cfg.window, serverScript, stopped)
    requires Moves(Client, es) == ClientMoves(START, cfg.receiverWindow, clientScript)
    requires Causal(cfg, Init(cfg), es)
    ensures var rx := ReceiveAll(START, cfg.receiverWindow, clientScript);
      var rc := Transfer(Init(cfg).tx, cfg.window, Sha1Spec.Digest(cfg.file), serverScript, stopped).1;
      && rx.status != Mismatch && rx.receivedBytes == |rx.out|
      && rx.out == cfg.file[..Min(DATA_CHUNK_SIZE * rx.expected, |cfg.file|)]
      && (rx.status == Verified || rc == Sent ==> rx.out == cfg.file)
  {
    hide Sha1Spec.Digest, Moves, ServerMoves, ClientMoves, Transfer, ReceiveAll, Causal, Path, ChunkCount;
    var t := RunsArePath(cfg, serverScript, stopped, clientScript, es);
    PrefixSafety(cfg, t);
    SuccessMeansSameFile(cfg, t);
    if t.phase == Closing(3) {
      ReachableInv(cfg, t);
      TerminateVerifies(cfg, t);
    }
  }

  // ---- Completed paths are nothing else ----

  lemma SideBegan(cfg: Config, side: Side, s: Sys, es: seq<Event>)
    requires s.tx.Bounds() && es != [] && Ready(s, es[0])
    requires Apply(cfg, s, es[0]).tx.Bounds() && AlwaysReady(cfg, Apply(cfg, s, es[0]), Moves(side, es[1..]))
    ensures AlwaysReady(cfg, s, Moves(side, es))
  {
    hide Apply, Ready;
    var e := es[0];
    if MadeBy(side, e) {
      assert Moves(side, es)[1..] == Moves(side, es[1..]);
    } else {
      OthersMove(cfg, side, s, e);
      OwnMoves(cfg, side, s, Apply(cfg, s, e), Moves(side, es));
    }
  }

  /** Every path is a causal merge of moves that each program can make by itself. */
  lemma {:induction false} PathIsMerge(cfg: Config, s: Sys, es: seq<Event>, t: Sys)
    requires s.tx.Bounds() && Path(cfg, s, es, t)
    ensures Causal(cfg, s, es) && t == After(cfg, s, es)
    ensures AlwaysReady(cfg, s, Moves(Server, es)) && AlwaysReady(cfg, s, Moves(Client, es))
    decreases |es|
  {
    hide Apply, Ready, Enabled, Arrived, Moves, AlwaysReady;
    if es != [] {
      BoundsKept(cfg, s, es[0]);
      EnabledIff(s, es[0]);
      PathIsMerge(cfg, Apply(cfg, s, es[0]), es[1..], t);
      SideBegan(cfg, Server, s, es);
      SideBegan(cfg, Client, s, es);
    } else {
      NothingMoved();
      NoMoves(cfg, s);
    }
  }

  lemma {:induction false} StoppedStays(cfg: Config, s: Sys, ms: seq<Event>)
    requires s.tx.Bounds() && s.phase == Stopped && AlwaysReady(cfg, s, ms)
    ensures After(cfg, s, ms).phase == Stopped
    decreases |ms|
  {
    if ms != [] {
      hide Fill, OnArrival, ResendDue, Receive, Sha1Spec.Digest;
      BoundsKept(cfg, s, ms[0]);
      StoppedStays(cfg, Apply(cfg, s, ms[0]), ms[1..]);
    }
  }

  /** One step of a server run that ends closed down: it is neither a stop nor a malformed datagram. */
  lemma NotStopped(cfg: Config, s: Sys, ms: seq<Event>)
    requires s.tx.Bounds() && AlwaysReady(cfg, s, ms) && After(cfg, s, ms).phase == Closing(3)
    requires forall e :: e in ms ==> MadeBy(Server, e)
    ensures s.phase != Closing(3) ==> ms != []
    ensures ms != [] ==>
      && Apply(cfg, s, ms[0]).tx.Bounds() && AlwaysReady(cfg, Apply(cfg, s, ms[0]), ms[1..])
      && After(cfg, s, ms) == After(cfg, Apply(cfg, s, ms[0]), ms[1..])
      && Ready(s, ms[0]) && MadeBy(Server, ms[0]) && !ms[0].ServerStop? && ms[0] != Listen(Malformed)
  {
    hide Ready;
    if ms != [] {
      assert ms[0] in ms;
      BoundsKept(cfg, s, ms[0]);
      if ms[0].ServerStop? || ms[0] == Listen(Malformed) {
        StoppedStays(cfg, Apply(cfg, s, ms[0]), ms[1..]);
      }
    }
  }

  /** From the close-down on there are only the TERMINATEs still to send. */
  lemma {:induction false} ClosingMoves(cfg: Config, s: Sys, ms: seq<Event>)
    requires s.tx.Bounds() && s.phase.Closing? && AlwaysReady(cfg, s, ms) && After(cfg, s, ms).phase == Closing(3)
    requires forall e :: e in ms ==> MadeBy(Server, e)
    ensures s.phase.terminates + |ms| == 3 && forall e :: e in ms ==> e == CloseDown
    decreases |ms|
  {
    hide Sha1Spec.Digest, After, AlwaysReady;
    NotStopped(cfg, s, ms);
    if ms != [] {
      assert ms == [ms[0]] + ms[1..];
      ClosingMoves(cfg, Apply(cfg, s, ms[0]), ms[1..]);
    } else {
      NoMoves(cfg, s);
    }
  }

  /** The server's moves in a path that ends closed down are those of its transfer function over some script. */
  lemma {:induction false} ServerScript(cfg: Config, s: Sys, ms: seq<Event>)
    returns (script: seq<(ReliableServer.Arrival, set<nat>)>)
    requires s.tx.Bounds() && s.phase == Filling && AlwaysReady(cfg, s, ms) && After(cfg, s, ms).phase == Closing(3)
    requires forall e :: e in ms ==> MadeBy(Server, e)
    ensures ms == ServerMoves(s.tx, cfg.window, script, false)
    decreases |ms|
  {
    hide Sha1Spec.Digest, After, AlwaysReady, Fill, OnArrival, ResendDue;
    NotStopped(cfg, s, ms);
    if ms[0].CloseDown? {
      script := [];
      ClosingMoves(cfg, Apply(cfg, s, ms[0]), ms[1..]);
      assert ms[0] in ms && ms[1] in ms[1..] && ms[2] in ms[1..];
      assert ms == [CloseDown, CloseDown, CloseDown];
    } else {
      var s1 := Apply(cfg, s, ms[0]);
      NotStopped(cfg, s1, ms[1..]);
      var a := ms[1].a;
      var s2 := Apply(cfg, s1, ms[1]);
      assert ms[1..][1..] == ms[2..];
      NotStopped(cfg, s2, ms[2..]);
      var due := ms[2].due;
      var s3 := Apply(cfg, s2, ms[2]);
      assert ms[2..][1..] == ms[3..];
      script := ServerScript(cfg, s3, ms[3..]);
      script := [(a, due)] + script;
      assert ms == [FillWindow, Listen(a), CheckTimers(due)] + ms[3..];
    }
  }

  lemma DoneStays(cfg: Config, s: Sys, ms: seq<Event>)
    requires s.tx.Bounds() && s.rx.status != Receiving && AlwaysReady(cfg, s, ms)
    requires forall e :: e in ms ==> MadeBy(Client, e)
    ensures ms == []
  {
    hide Ready;
    if ms != [] {
      assert ms[0] in ms;
      ClientReady(s, ms[0]);
    }
  }

  lemma ClientReady(s: Sys, e: Event)
    requires MadeBy(Client, e) && Ready(s, e)
    ensures s.rx.status == Receiving
  {
  }

  /** Likewise for the client's moves in a path that ends verified. */
  lemma {:induction false} ClientScript(cfg: Config, s: Sys, ms: seq<Event>)
    returns (script: seq<ReliableClient.Arrival>)
    requires s.tx.Bounds() && AlwaysReady(cfg, s, ms) && After(cfg, s, ms).rx.status == Verified
    requires forall e :: e in ms ==> MadeBy(Client, e)
    ensures ms == ClientMoves(s.rx, cfg.receiverWindow, script)
    decreases |ms|
  {
    hide Receive;
    if ms == [] {
      script := [];
    } else {
      assert ms[0] in ms;
      var t := Apply(cfg, s, ms[0]);
      if ms[0].ClientStop? {
        DoneStays(cfg, t, ms[1..]);
        assert false;
      } else {
        script := ClientScript(cfg, t, ms[1..]);
        script := [ReliableClient.Arrival.FromServer(ms[0].p)] + script;
        assert ms == [ms[0]] + ms[1..];
      }
    }
  }

  /** The merged moves are those of a run of each function, and both report success. */
  ghost predicate Completed(cfg: Config, es: seq<Event>, serverScript: seq<(ReliableServer.Arrival, set<nat>)>,
        clientScript: seq<ReliableClient.Arrival>) {
    && Moves(Server, es) == ServerMoves(Init(cfg).tx, cfg.window, serverScript, false)
    && Moves(Client, es) == ClientMoves(START, cfg.receiverWindow, clientScript)
    && Transfer(Init(cfg).tx, cfg.window, Sha1Spec.Digest(cfg.file), serverScript, false).1 == Sent
    && ReceiveAll(START, cfg.receiverWindow, clientScript).status == Verified
  }

  /** The paths on which both sides succeed are exactly the causal merges of two successful runs. */
  lemma CompletedPathIff(cfg: Config, es: seq<Event>)
    ensures (exists t :: Path(cfg, Init(cfg), es, t) && t.phase == Closing(3) && t.rx.status == Verified)
      <==> Causal(cfg, Init(cfg), es) && exists ss, cs :: Completed(cfg, es, ss, cs)
  {
    hide Sha1Spec.Digest, AlwaysReady, After, Moves, ServerMoves, ClientMoves, Transfer, ReceiveAll, Causal, Path;
    var s := Init(cfg);
    if t :| Path(cfg, s, es, t) && t.phase == Closing(3) && t.rx.status == Verified {
      PathIsMerge(cfg, s, es, t);
      MergeIsPath(cfg, s, es);
      var ss := ServerScript(cfg, s, Moves(Server, es));
      var cs := ClientScript(cfg, s, Moves(Client, es));
      ServerRuns(cfg, s, ss, false);
      ClientRuns(cfg, s, cs);
      assert Completed(cfg, es, ss, cs);
    }
    if Causal(cfg, s, es) {
      if ss, cs :| Completed(cfg, es, ss, cs) {
        var t := RunsArePath(cfg, ss, false, cs, es);
      }
    }
  }

  /** Two runs of the functions can be merged so that both succeed exactly when the chunk ids fit in 32 bits. */
  lemma RunsCompleteIff(cfg: Config)
    requires cfg.window > 0
    ensures (exists es, ss, cs :: Causal(cfg, Init(cfg), es) && Completed(cfg, es, ss, cs))
      <==> ChunkCount(cfg.file) < U32
  {
    hide Causal, Completed, Path, ChunkCount;
    if ChunkCount(cfg.file) < U32 {
      var s := Init(cfg);
      assert Path(cfg, s, [], s) by { StartIsPath(cfg); }
      assert Reachable(cfg, s);
      var es, t := NeverWedged(cfg, s);
      PromptIsPath(cfg, s, es, t);
      CompletedPathIff(cfg, es);
    }
    if es, ss, cs :| Causal(cfg, Init(cfg), es) && Completed(cfg, es, ss, cs) {
      CompletedPathIff(cfg, es);
      CompletesIff(cfg);
    }
  }

  lemma StartIsPath(cfg: Config)
    ensures Path(cfg, Init(cfg), [], Init(cfg))
  {
  }
}
