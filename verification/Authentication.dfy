/** The three-attempt password exchange of server.c and client.c. */
module Authentication {
  import opened Bytes
  import opened Packets
  import opened Results
  import BasicTransfer
  import ReliableServer

  const MAX_ATTEMPTS: nat := 3

  datatype Phase = Waiting | Accepted | Rejected | Aborted

  /** The server's side: the number of the attempt it is counting, and how it stands. */
  datatype Server = Server(attempt: nat, phase: Phase)

  /** What one receive call yields: nothing usable, or a well-formed packet and the peer it came from. */
  datatype Arrival = Failed | From(peer: nat, p: Packet)

  function OnServer(password: seq<byte>, peer: nat, s: Server, a: Arrival): (r: (Server, seq<Packet>))
    requires s.phase == Waiting
  {
    if a.Failed? then (s.(phase := Aborted), [])
    else if a.peer != peer then (s, [])
    else
      match a.p
      case PassResp(answer) =>
        if answer == password then (s.(phase := Accepted), [PassAccept])
        else if s.attempt == MAX_ATTEMPTS then (s.(phase := Rejected), [Reject])
        else (s.(attempt := s.attempt + 1), [PassReq])
      case _ => (s.(phase := Aborted), [])
  }

  /** The whole loop over a script of arrivals; when the script ends the server is stopped. */
  function ServerRun(password: seq<byte>, peer: nat, s: Server, script: seq<Arrival>): (Server, seq<Packet>)
    decreases |script|
  {
    if s.phase != Waiting then (s, [])
    else if script == [] then (s.(phase := Aborted), [])
    else
      var (next, sent) := OnServer(password, peer, s, script[0]);
      var (last, rest) := ServerRun(password, peer, next, script[1..]);
      (last, sent + rest)
  }

  lemma ServerRunStep(password: seq<byte>, peer: nat, s: Server, script: seq<Arrival>, k: nat)
    requires s.phase == Waiting && k < |script|
    ensures var (next, sent) := OnServer(password, peer, s, script[k]);
      var (last, rest) := ServerRun(password, peer, next, script[k + 1..]);
      ServerRun(password, peer, s, script[k..]) == (last, sent + rest)
  {
    assert script[k..][1..] == script[k + 1..];
  }

  lemma ServerRunStopped(password: seq<byte>, peer: nat, s: Server, script: seq<Arrival>)
    ensures s.phase != Waiting ==> ServerRun(password, peer, s, script) == (s, [])
    ensures s.phase == Waiting && script == [] ==> ServerRun(password, peer, s, script) == (s.(phase := Aborted), [])
  {
  }

  const FIRST: Server := Server(1, Waiting)

  /** The authentication loop of the server's main; the PASS_REQ that opens it has been sent. */
  method ServeAuthentication(password: seq<byte>, peer: nat, script: seq<Arrival>)
    returns (authed: bool, sent: seq<Packet>)
    ensures (sent, authed) ==
      (ServerRun(password, peer, FIRST, script).1, ServerRun(password, peer, FIRST, script).0.phase == Accepted)
  {
    hide ServerRun, OnServer, Continues;
    sent, authed := [], false;
    var attempt, k := 1, 0;
    assert script[0..] == script;
    ghost var want := ServerRun(password, peer, FIRST, script);
    ContinuesFromStart(want);
    while attempt <= MAX_ATTEMPTS && !authed && k < |script|
      invariant 1 <= attempt <= MAX_ATTEMPTS && k <= |script|
      invariant !authed ==> Continues(want, sent, ServerRun(password, peer, Server(attempt, Waiting), script[k..]))
      invariant authed ==> want.1 == sent && want.0.phase == Accepted
      decreases |script| - k
    {
      ghost var s := Server(attempt, Waiting);
      ServerTurn(password, peer, s, script, k, want, sent);
      var arrival := script[k];
      k := k + 1;
      OnServerCases(password, peer, s, arrival);
      assert sent + [] == sent;
      if arrival.Failed? {
        return;
      }
      if arrival.peer != peer {
        attempt := attempt - 1;
        attempt := attempt + 1;
        continue;
      }
      if !arrival.p.PassResp? {
        return;
      }
      var passwordOk := |arrival.p.password| == |password| && arrival.p.password == password;
      if passwordOk {
        sent := sent + [PassAccept];
        authed := true;
      } else {
        if attempt == MAX_ATTEMPTS {
          sent := sent + [Reject];
          return;
        }
        sent := sent + [PassReq];
        attempt := attempt + 1;
      }
    }
    if !authed {
      ServerRunStopped(password, peer, Server(attempt, Waiting), script[k..]);
      ContinuesToEnd(want, sent, ServerRun(password, peer, Server(attempt, Waiting), script[k..]));
    }
  }

  /** The run so far has sent these packets and goes on as given. */
  ghost predicate Continues(want: (Server, seq<Packet>), sent: seq<Packet>, rest: (Server, seq<Packet>)) {
    want == (rest.0, sent + rest.1)
  }

  lemma ContinuesFromStart(want: (Server, seq<Packet>))
    ensures Continues(want, [], want)
  {
    assert [] + want.1 == want.1;
  }

  lemma ContinuesToEnd(want: (Server, seq<Packet>), sent: seq<Packet>, rest: (Server, seq<Packet>))
    requires Continues(want, sent, rest)
    ensures want.0 == rest.0 && (rest.1 == [] ==> want.1 == sent)
  {
  }

  lemma ServerTurn(password: seq<byte>, peer: nat, s: Server, script: seq<Arrival>, k: nat, want: (Server,
        seq<Packet>), sent: seq<Packet>)
    requires s.phase == Waiting && k < |script|
    requires Continues(want, sent, ServerRun(password, peer, s, script[k..]))
    ensures var (next, more) := OnServer(password, peer, s, script[k]);
      && Continues(want, sent + more, ServerRun(password, peer, next, script[k + 1..]))
      && (next.phase != Waiting ==> want == (next, sent + more))
  {
    hide OnServer, ServerRun;
    var (next, more) := OnServer(password, peer, s, script[k]);
    ServerRunStep(password, peer, s, script, k);
    ServerRunStopped(password, peer, next, script[k + 1..]);
    assert sent + (more + ServerRun(password, peer, next, script[k + 1..]).1) ==
      sent + more + ServerRun(password, peer, next, script[k + 1..]).1;
    assert sent + more + [] == sent + more;
  }

  lemma OnServerCases(password: seq<byte>, peer: nat, s: Server, a: Arrival)
    requires s.phase == Waiting
    ensures OnServer(password, peer, s, a) ==
      if a.Failed? then (s.(phase := Aborted), [])
      else if a.peer != peer then (s, [])
      else if !a.p.PassResp? then (s.(phase := Aborted), [])
      else if a.p.password == password then (s.(phase := Accepted), [PassAccept])
      else if s.attempt == MAX_ATTEMPTS then (s.(phase := Rejected), [Reject])
      else (s.(attempt := s.attempt + 1), [PassReq])
  {
  }

  /** Packets from other peers change nothing: dropping them all from a script leaves the run as it was. */
  function FromOwnPeer(peer: nat, script: seq<Arrival>): seq<Arrival>
    decreases |script|
  {
    if script == [] then []
    else (if script[0].Failed? || script[0].peer == peer then [script[0]] else []) + FromOwnPeer(peer, script[1..])
  }

  lemma {:induction false} StrangersIgnored(password: seq<byte>, peer: nat, s: Server, script: seq<Arrival>)
    ensures ServerRun(password, peer, s, script) == ServerRun(password, peer, s, FromOwnPeer(peer, script))
    decreases |script|
  {
    hide OnServer;
    if s.phase == Waiting && script != [] {
      var a, rest := script[0], script[1..];
      OnServerCases(password, peer, s, a);
      StrangersIgnored(password, peer, OnServer(password, peer, s, a).0, rest);
      if a.Failed? || a.peer == peer {
        var kept := FromOwnPeer(peer, script);
        assert kept[0] == a && kept[1..] == FromOwnPeer(peer, rest);
      } else {
        assert FromOwnPeer(peer, script) == FromOwnPeer(peer, rest);
        assert [] + ServerRun(password, peer, s, rest).1 == ServerRun(password, peer, s, rest).1;
      }
    }
  }

  // ---- The server's whole conversation ----

  /** The transfer that follows, with what its receive calls, timers and stop flag yield. */
  datatype Mode =
    | BasicMode(stopAt: nat)
    | ReliableMode(
        faults: ReliableServer.Faults, window: nat, script: seq<(ReliableServer.Arrival, set<nat>)>, stopped: bool)

  /** The datagrams of the transfer, and whether it succeeds. */
  function TransferSends(file: seq<byte>, mode: Mode): (seq<Packet>, bool) {
    var digest := BasicTransfer.FileDigest(file);
    match mode
    case BasicMode(stopAt) => BasicTransfer.Transferred(file, digest, stopAt)
    case ReliableMode(faults, window, script, stopped) =>
      var start := ReliableServer.Tx(ReliableServer.FreshChunks(file, faults), 0, 0, []);
      var (tx, rc) := ReliableServer.Transfer(start, window, digest, script, stopped);
      (tx.sent, rc == ReliableServer.Sent)
  }

  /** Everything after the opening PASS_REQ; the transfer starts after acceptance, unless a stop comes first. */
  function ServerSends(password: seq<byte>, peer: nat, script: seq<Arrival>, stopped: bool, file: seq<byte>,
        mode: Mode): (seq<Packet>, bool)
  {
    var (server, sent) := ServerRun(password, peer, FIRST, script);
    if server.phase == Accepted && !stopped then
      var (data, ok) := TransferSends(file, mode);
      (sent + data, ok)
    else (sent, false)
  }

  /** Until it accepts, the server sends nothing but password requests and rejections. */
  lemma {:induction false} AcceptComesFirst(password: seq<byte>, peer: nat, s: Server, script: seq<Arrival>)
    ensures forall i :: 0 <= i < |ServerRun(password, peer, s, script).1| ==>
      ServerRun(password, peer, s, script).1[i] in {PassReq, PassAccept, Reject}
    ensures s.phase == Waiting && ServerRun(password, peer, s, script).0.phase == Accepted ==>
      PassAccept in ServerRun(password, peer, s, script).1
    decreases |script|
  {
    hide OnServer;
    if s.phase == Waiting && script != [] {
      OnServerCases(password, peer, s, script[0]);
      AcceptComesFirst(password, peer, OnServer(password, peer, s, script[0]).0, script[1..]);
    }
  }

  /** In every run of either mode each DATA and each TERMINATE follows a PASS_ACCEPT. */
  lemma NoDataBeforeAccept(password: seq<byte>, peer: nat, script: seq<Arrival>, stopped: bool, file: seq<byte>,
        mode: Mode, i: nat)
    ensures var sent := ServerSends(password, peer, script, stopped, file, mode).0;
      i < |sent| && (sent[i].Data? || sent[i].Terminate?) ==> PassAccept in sent[..i]
  {
    hide ServerRun, TransferSends;
    var (server, sent) := ServerRun(password, peer, FIRST, script);
    var all := ServerSends(password, peer, script, stopped, file, mode).0;
    AcceptComesFirst(password, peer, FIRST, script);
    if i < |all| && (all[i].Data? || all[i].Terminate?) {
      assert i >= |sent|;
      var k :| 0 <= k < |sent| && sent[k] == PassAccept;
      assert all[..i][k] == PassAccept;
    }
  }

  /** Unless it has accepted and no stop has come since, the server fails and transfers nothing. */
  lemma NothingWithoutAccept(password: seq<byte>, peer: nat, script: seq<Arrival>, stopped: bool, file: seq<byte>,
        mode: Mode)
    requires stopped || ServerRun(password, peer, FIRST, script).0.phase != Accepted
    ensures var (sent, ok) := ServerSends(password, peer, script, stopped, file, mode);
      !ok && forall i :: 0 <= i < |sent| ==> !sent[i].Data? && !sent[i].Terminate?
  {
    hide ServerRun, TransferSends;
    AcceptComesFirst(password, peer, FIRST, script);
  }

  method RunTransfer(file: seq<byte>, mode: Mode) returns (sent: seq<Packet>, ok: bool)
    ensures (sent, ok) == TransferSends(file, mode)
  {
    hide BasicTransfer.Transferred, ReliableServer.Transfer, BasicTransfer.FileDigest;
    var digest := BasicTransfer.DigestOf(file);
    match mode {
      case BasicMode(stopAt) =>
        sent, ok := BasicTransfer.TransferFile(file, digest, stopAt);
      case ReliableMode(faults, window, arrivals, stopped) =>
        var sender := new ReliableServer.Sender(file, faults, window);
        var rc := sender.TransferFileReliable(digest, arrivals, stopped);
        sent, ok := sender.sent, rc == ReliableServer.Sent;
    }
  }

  /** The server's main after JOIN_REQ. */
  method Serve(password: seq<byte>, peer: nat, script: seq<Arrival>, stopped: bool, file: seq<byte>, mode: Mode)
    returns (ok: bool, sent: seq<Packet>)
    ensures sent == [PassReq] + ServerSends(password, peer, script, stopped, file, mode).0
    ensures ok == ServerSends(password, peer, script, stopped, file, mode).1
  {
    hide ServerRun, TransferSends;
    sent := [PassReq];
    var authed, replies := ServeAuthentication(password, peer, script);
    sent := sent + replies;
    if !authed || stopped {
      return false, sent;
    }
    var data;
    data, ok := RunTransfer(file, mode);
    sent := sent + data;
  }

  // ---- The client ----

  /** The client: how many passwords it has used, and how it stands. */
  datatype Client = Client(attempt: nat, phase: Phase)

  /** get_password for the three command-line passwords: the copy needs room for the terminator. */
  predicate Available(passwords: seq<seq<byte>>, i: nat) {
    i < MAX_ATTEMPTS && i < |passwords| && |passwords[i]| < MAX_PASSWORD + 1
  }

  /** One packet from the server; anything else that a receive call yields aborts. */
  function OnClient(passwords: seq<seq<byte>>, c: Client, p: Packet): (Client, seq<Packet>)
    requires c.phase == Waiting
  {
    match p
    case PassReq =>
      if Available(passwords, c.attempt) then (c.(attempt := c.attempt + 1), [PassResp(passwords[c.attempt])])
      else (c.(phase := Aborted), [])
    case PassAccept => (c.(phase := Accepted), [])
    case Reject => (c.(phase := Rejected), [])
    case _ => (c.(phase := Aborted), [])
  }

  /** A password can be used when it is one of the first three and fits a PASS_RESP. */
  lemma AvailableIff(passwords: seq<seq<byte>>, i: nat)
    ensures Available(passwords, i) <==> i < 3 && i < |passwords| && PassResp(passwords[i]).WellFormed()
  {
  }

  lemma OnClientCases(passwords: seq<seq<byte>>, c: Client, p: Packet)
    requires c.phase == Waiting
    ensures OnClient(passwords, c, p) ==
      if p == PassReq && Available(passwords, c.attempt) then
        (Client(c.attempt + 1, Waiting), [PassResp(passwords[c.attempt])])
      else (Client(c.attempt, if p == PassAccept then Accepted else if p == Reject then Rejected else Aborted), [])
  {
    hide Available;
  }

  // ---- Client and server on a channel without faults ----

  /** Both ends, the packets on their way, and how many PASS_RESP were sent. */
  datatype Joint = Joint(server: Server, client: Client, toServer: seq<Packet>, toClient: seq<Packet>, responses: nat)

  /** A packet reaches an end, or a stranger's packet reaches the server. */
  datatype Event = ToServer | ToClient | Stranger(p: Packet)

  const OPENING := Joint(FIRST, Client(0, Waiting), [], [PassReq], 0)

  predicate Enabled(j: Joint, e: Event) {
    match e
    case ToServer => j.toServer != [] && j.server.phase == Waiting
    case ToClient => j.toClient != [] && j.client.phase == Waiting
    case Stranger(_) => j.server.phase == Waiting
  }

  function Step(password: seq<byte>, passwords: seq<seq<byte>>, j: Joint, e: Event): Joint
    requires Enabled(j, e)
  {
    match e
    case ToServer =>
      var (server, sent) := OnServer(password, 0, j.server, From(0, j.toServer[0]));
      j.(server := server, toServer := j.toServer[1..], toClient := j.toClient + sent)
    case ToClient =>
      var (client, sent) := OnClient(passwords, j.client, j.toClient[0]);
      j.(client := client, toClient := j.toClient[1..], toServer := j.toServer + sent,
         responses := j.responses + |sent|)
    case Stranger(p) =>
      var (server, sent) := OnServer(password, 0, j.server, From(1, p));
      j.(server := server, toClient := j.toClient + sent)
  }

  predicate IsRun(password: seq<byte>, passwords: seq<seq<byte>>, from: Joint, es: seq<Event>, to: Joint)
    decreases |es|
  {
    if es == [] then from == to
    else Enabled(from, es[0]) && IsRun(password, passwords, Step(password, passwords, from, es[0]), es[1..], to)
  }

  /** The first n passwords were available and wrong. */
  predicate WrongSoFar(password: seq<byte>, passwords: seq<seq<byte>>, n: nat) {
    n <= MAX_ATTEMPTS && forall i :: 0 <= i < n ==> Available(passwords, i) && passwords[i] != password
  }

  /** The n-th password, counted from one, was the first right one. */
  predicate RightAt(password: seq<byte>, passwords: seq<seq<byte>>, n: nat) {
    n > 0 && WrongSoFar(password, passwords, n - 1) && Available(passwords, n - 1) && passwords[n - 1] == password
  }

  /** Every state of a run, with what the run has shown about the passwords. */
  predicate Inv(password: seq<byte>, passwords: seq<seq<byte>>, j: Joint) {
    var n := j.client.attempt;
    && j.responses == n
    && match j.server.phase
       case Waiting =>
         || (Asked(j) && j.server.attempt == n + 1 && WrongSoFar(password, passwords, n) && n < MAX_ATTEMPTS)
         || (Answered(passwords, j) && j.server.attempt == n && WrongSoFar(password, passwords, n - 1))
         || (Stuck(j) && j.server.attempt == n + 1 && WrongSoFar(password, passwords, n) && n < MAX_ATTEMPTS
             && !Available(passwords, n))
       case Accepted => Told(j, PassAccept, Accepted) && RightAt(password, passwords, n)
       case Rejected => Told(j, Reject, Rejected) && WrongSoFar(password, passwords, n) && n == MAX_ATTEMPTS
       case Aborted => false
  }

  predicate Asked(j: Joint) {
    j.client.phase == Waiting && j.toClient == [PassReq] && j.toServer == []
  }

  predicate Answered(passwords: seq<seq<byte>>, j: Joint) {
    && j.client.phase == Waiting && j.client.attempt > 0 && j.toClient == []
    && Available(passwords, j.client.attempt - 1)
    && j.toServer == [PassResp(passwords[j.client.attempt - 1])]
  }

  /** The client has given up because it cannot use its next password. */
  predicate Stuck(j: Joint) {
    j.client.phase == Aborted && j.toClient == [] && j.toServer == []
  }

  predicate Told(j: Joint, verdict: Packet, phase: Phase) {
    && j.toServer == []
    && if j.client.phase == Waiting then j.toClient == [verdict] else j.toClient == [] && j.client.phase == phase
  }

  lemma StepKeepsInv(password: seq<byte>, passwords: seq<seq<byte>>, j: Joint, e: Event)
    requires Inv(password, passwords, j) && Enabled(j, e)
    ensures Inv(password, passwords, Step(password, passwords, j, e))
  {
    match e
    case ToServer => ServerKeepsInv(password, passwords, j);
    case ToClient => ClientKeepsInv(password, passwords, j);
    case Stranger(p) => assert j.toClient + [] == j.toClient;
  }

  lemma ServerKeepsInv(password: seq<byte>, passwords: seq<seq<byte>>, j: Joint)
    requires Inv(password, passwords, j) && Enabled(j, ToServer)
    ensures Inv(password, passwords, Step(password, passwords, j, ToServer))
  {
    var n := j.client.attempt;
    assert Answered(passwords, j);
    if passwords[n - 1] != password {
      assert WrongSoFar(password, passwords, n);
    }
  }

  lemma ClientKeepsInv(password: seq<byte>, passwords: seq<seq<byte>>, j: Joint)
    requires Inv(password, passwords, j) && Enabled(j, ToClient)
    ensures Inv(password, passwords, Step(password, passwords, j, ToClient))
  {
    hide WrongSoFar, RightAt;
    var next := Step(password, passwords, j, ToClient);
    if j.server.phase == Waiting {
      assert Asked(j);
      if Available(passwords, j.client.attempt) {
        assert Answered(passwords, next);
      } else {
        assert j.toServer + [] == [];
      }
    } else {
      assert j.toServer + [] == [];
    }
  }

  lemma {:induction false} RunKeepsInv(password: seq<byte>, passwords: seq<seq<byte>>, from: Joint,
        es: seq<Event>, to: Joint)
    requires Inv(password, passwords, from) && IsRun(password, passwords, from, es, to)
    ensures Inv(password, passwords, to)
    decreases |es|
  {
    hide Inv, Step, Enabled;
    if es != [] {
      StepKeepsInv(password, passwords, from, es[0]);
      RunKeepsInv(password, passwords, Step(password, passwords, from, es[0]), es[1..], to);
    }
  }

  // ---- How a complete run ends ----

  /** Neither end has a packet it can take. */
  predicate Quiet(j: Joint) {
    !Enabled(j, ToServer) && !Enabled(j, ToClient)
  }

  lemma OpeningInv(password: seq<byte>, passwords: seq<seq<byte>>)
    ensures Inv(password, passwords, OPENING)
  {
  }

  lemma QuietStates(password: seq<byte>, passwords: seq<seq<byte>>, j: Joint)
    requires Inv(password, passwords, j) && Quiet(j)
    ensures var n := j.responses;
      match j.server.phase
      case Accepted => j.client.phase == Accepted && RightAt(password, passwords, n)
      case Rejected => j.client.phase == Rejected && n == MAX_ATTEMPTS && WrongSoFar(password, passwords, MAX_ATTEMPTS)
      case Waiting =>
        j.client.phase == Aborted && WrongSoFar(password, passwords, n) && n < MAX_ATTEMPTS && !Available(passwords, n)
      case Aborted => false
  {
    hide WrongSoFar, RightAt, Available;
  }

  /** The three ways the passwords can turn out exclude one another. */
  lemma OneOutcome(password: seq<byte>, passwords: seq<seq<byte>>, n: nat, m: nat)
    ensures RightAt(password, passwords, n) && RightAt(password, passwords, m) ==> n == m
    ensures RightAt(password, passwords, n) && m <= MAX_ATTEMPTS && WrongSoFar(password, passwords, m) ==> m < n
    ensures WrongSoFar(password, passwords, m) && n < m ==> Available(passwords, n)
    ensures RightAt(password, passwords, n) && m < n ==> Available(passwords, m)
  {
  }

  /** One of the first three passwords is the server's, and every password before it can be sent. */
  predicate SomeRight(password: seq<byte>, passwords: seq<seq<byte>>) {
    exists n :: 1 <= n <= MAX_ATTEMPTS && RightAt(password, passwords, n)
  }

  /**
   * Both ends accept exactly when one of the passwords is right, at its number; both reject exactly after three
   * wrong ones.
   */
  lemma CompleteRuns(password: seq<byte>, passwords: seq<seq<byte>>, es: seq<Event>, j: Joint)
    requires IsRun(password, passwords, OPENING, es, j) && Quiet(j)
    ensures j.server.phase == Accepted && j.client.phase == Accepted <==> SomeRight(password, passwords)
    ensures j.server.phase == Accepted ==> RightAt(password, passwords, j.responses)
    ensures j.server.phase == Rejected && j.client.phase == Rejected <==> WrongSoFar(password, passwords, MAX_ATTEMPTS)
    ensures j.server.phase == Rejected ==> j.responses == MAX_ATTEMPTS
  {
    hide IsRun, Inv, Quiet, WrongSoFar, RightAt, Available;
    OpeningInv(password, passwords);
    RunKeepsInv(password, passwords, OPENING, es, j);
    QuietStates(password, passwords, j);
    RightWithinThree(password, passwords, j.responses);
    if SomeRight(password, passwords) {
      var n :| 1 <= n <= MAX_ATTEMPTS && RightAt(password, passwords, n);
      OneOutcome(password, passwords, n, j.responses);
    }
    if WrongSoFar(password, passwords, MAX_ATTEMPTS) {
      OneOutcome(password, passwords, j.responses, MAX_ATTEMPTS);
    }
  }

  lemma RightWithinThree(password: seq<byte>, passwords: seq<seq<byte>>, n: nat)
    ensures RightAt(password, passwords, n) ==> SomeRight(password, passwords)
  {
  }

  // ---- Every run is short, and can be completed ----

  function Rank(j: Joint): int {
    if j.client.phase != Waiting then 0
    else if j.server.phase != Waiting then 1
    else if j.toClient != [] then 7 - 2 * j.client.attempt
    else 8 - 2 * j.client.attempt
  }

  function Deliveries(es: seq<Event>): nat {
    if es == [] then 0 else (if es[0].Stranger? then 0 else 1) + Deliveries(es[1..])
  }

  lemma StepLowersRank(password: seq<byte>, passwords: seq<seq<byte>>, j: Joint, e: Event)
    requires Inv(password, passwords, j) && Enabled(j, e)
    ensures Rank(Step(password, passwords, j, e)) <= Rank(j) - (if e.Stranger? then 0 else 1)
    ensures Rank(Step(password, passwords, j, e)) >= 0
  {
    StepKeepsInv(password, passwords, j, e);
    match e
    case ToServer => assert Answered(passwords, j);
    case ToClient =>
    case Stranger(p) => assert j.toClient + [] == j.toClient;
  }

  /** However many strangers' packets arrive, a run delivers at most seven packets of its own. */
  lemma {:induction false} AtMostSevenDeliveries(password: seq<byte>, passwords: seq<seq<byte>>, from: Joint,
        es: seq<Event>, to: Joint)
    requires Inv(password, passwords, from) && IsRun(password, passwords, from, es, to)
    ensures Deliveries(es) <= Rank(from) <= 7
    decreases |es|
  {
    hide Step, Enabled;
    RankBounds(password, passwords, from);
    if es != [] {
      StepKeepsInv(password, passwords, from, es[0]);
      StepLowersRank(password, passwords, from, es[0]);
      hide Inv, Rank;
      AtMostSevenDeliveries(password, passwords, Step(password, passwords, from, es[0]), es[1..], to);
    }
  }

  lemma RankBounds(password: seq<byte>, passwords: seq<seq<byte>>, j: Joint)
    requires Inv(password, passwords, j)
    ensures 0 <= Rank(j) <= 7
  {
  }

  /** From every reachable state the exchange can be brought to its end. */
  lemma {:induction false} CanComplete(password: seq<byte>, passwords: seq<seq<byte>>, from: Joint)
    returns (es: seq<Event>, to: Joint)
    requires Inv(password, passwords, from)
    ensures IsRun(password, passwords, from, es, to) && Quiet(to)
    decreases Rank(from)
  {
    hide Step, Inv, Rank;
    RankBounds(password, passwords, from);
    if Quiet(from) {
      es, to := [], from;
    } else {
      var e := if Enabled(from, ToServer) then ToServer else ToClient;
      StepKeepsInv(password, passwords, from, e);
      StepLowersRank(password, passwords, from, e);
      es, to := CanComplete(password, passwords, Step(password, passwords, from, e));
      es := [e] + es;
    }
  }

  // ---- The client's loop ----

  /** What the client's receive call yields in its loop. */
  function ClientRun(passwords: seq<seq<byte>>, c: Client, script: seq<Option<Packet>>): (Client, seq<Packet>)
    decreases |script|
  {
    if c.phase != Waiting then (c, [])
    else if script == [] || script[0].None? then (c.(phase := Aborted), [])
    else
      var (next, sent) := OnClient(passwords, c, script[0].value);
      var (last, rest) := ClientRun(passwords, next, script[1..]);
      (last, sent + rest)
  }

  lemma ClientTurn(passwords: seq<seq<byte>>, c: Client, script: seq<Option<Packet>>, k: nat, want: (Client,
        seq<Packet>), sent: seq<Packet>)
    requires c.phase == Waiting && k < |script|
    requires ClientContinues(want, sent, ClientRun(passwords, c, script[k..]))
    ensures script[k].None? ==> want == (c.(phase := Aborted), sent)
    ensures script[k].Some? ==>
      var (next, more) := OnClient(passwords, c, script[k].value);
      && ClientContinues(want, sent + more, ClientRun(passwords, next, script[k + 1..]))
      && (next.phase != Waiting ==> want == (next, sent + more))
  {
    hide OnClient;
    assert script[k..][1..] == script[k + 1..];
    assert sent + [] == sent;
    if script[k].Some? {
      var (next, more) := OnClient(passwords, c, script[k].value);
      var rest := ClientRun(passwords, next, script[k + 1..]).1;
      assert sent + (more + rest) == sent + more + rest;
      assert sent + more + [] == sent + more;
    }
  }

  ghost predicate ClientContinues(want: (Client, seq<Packet>), sent: seq<Packet>, rest: (Client, seq<Packet>)) {
    want == (rest.0, sent + rest.1)
  }

  lemma ClientEnds(passwords: seq<seq<byte>>, c: Client, want: (Client, seq<Packet>), sent: seq<Packet>)
    requires c.phase == Waiting && ClientContinues(want, sent, ClientRun(passwords, c, []))
    ensures want == (c.(phase := Aborted), sent)
  {
    assert sent + [] == sent;
  }

  /** The authentication loop of the client's main; the end of the script is the stop signal. */
  method Authenticate(passwords: seq<seq<byte>>, script: seq<Option<Packet>>)
    returns (authed: bool, attempt: nat, sent: seq<Packet>)
    ensures var (c, all) := ClientRun(passwords, Client(0, Waiting), script);
      authed == (c.phase == Accepted) && attempt == c.attempt && sent == all
  {
    hide ClientRun, ClientContinues;
    authed, attempt, sent := false, 0, [];
    var k := 0;
    ghost var want := ClientRun(passwords, Client(0, Waiting), script);
    assert script[0..] == script;
    ClientContinuesFromStart(want);
    while !authed && k < |script|
      invariant k <= |script|
      invariant !authed ==> ClientContinues(want, sent, ClientRun(passwords, Client(attempt, Waiting), script[k..]))
      invariant authed ==> want == (Client(attempt, Accepted), sent)
      decreases |script| - k
    {
      ClientTurn(passwords, Client(attempt, Waiting), script, k, want, sent);
      assert sent + [] == sent;
      if script[k].None? {
        return;
      }
      match script[k].value {
        case PassReq =>
          if attempt >= MAX_ATTEMPTS || !Available(passwords, attempt) {
            return;
          }
          sent := sent + [PassResp(passwords[attempt])];
          attempt := attempt + 1;
        case PassAccept => authed := true;
        case Reject => return;
        case _ => return;
      }
      k := k + 1;
    }
    if !authed {
      assert script[k..] == [];
      ClientEnds(passwords, Client(attempt, Waiting), want, sent);
    }
  }

  lemma ClientContinuesFromStart(want: (Client, seq<Packet>))
    ensures ClientContinues(want, [], want)
  {
    assert [] + want.1 == want.1;
  }
}
