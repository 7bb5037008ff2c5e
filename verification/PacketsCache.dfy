/** The incremental packet cache of control_server.c. */
module PacketsCache {
  import opened Bytes
  import opened Results
  import opened LogLines

  datatype Side = ServerSide | ClientSide

  datatype PacketPair = PacketPair(uid: string, serverLine: string, clientLine: string) {
    function With(side: Side, line: string): PacketPair {
      if side.ServerSide? then this.(serverLine := line) else this.(clientLine := line)
    }
  }

  function IndexOf(ps: seq<PacketPair>, uid: string): (i: nat)
    ensures i <= |ps|
    ensures i < |ps| ==> ps[i].uid == uid
    ensures forall j :: 0 <= j < i ==> ps[j].uid != uid
  {
    if ps == [] || ps[0].uid == uid then 0 else 1 + IndexOf(ps[1..], uid)
  }

  /** packets_cache_put: overwrite the uid's line for one side, or append a new pair. */
  function PutPair(ps: seq<PacketPair>, uid: string, side: Side, line: string): seq<PacketPair> {
    var i := IndexOf(ps, uid);
    if i < |ps| then ps[i := ps[i].With(side, line)] else ps + [PacketPair(uid, "", "").With(side, line)]
  }

  function PutPiece(ps: seq<PacketPair>, side: Side, piece: string): seq<PacketPair> {
    match Key(piece)
    case Some(uid) => PutPair(ps, uid, side, LineText(piece))
    case None => ps
  }

  function FoldPieces(ps: seq<PacketPair>, side: Side, pieces: seq<string>): seq<PacketPair>
    decreases |pieces|
  {
    if pieces == [] then ps else FoldPieces(PutPiece(ps, side, pieces[0]), side, pieces[1..])
  }

  /** The partial-line guard: step back from an unterminated end to just behind the last newline after start. */
  function StepBack(content: string, start: nat, pos: nat): (off: nat)
    requires start <= pos < |content|
    ensures start <= off <= pos + 1
    decreases pos
  {
    if pos > start then
      if content[pos] == '\n' then pos + 1 else StepBack(content, start, pos - 1)
    else pos
  }

  function ResumeOffset(content: string, start: nat): (off: nat)
    requires start <= |content|
    ensures start <= off <= |content|
  {
    var eof := |content|;
    if eof > start && content[eof - 1] != '\n' then StepBack(content, start, eof - 1) else eof
  }

  /** packets_scan_log: fold everything from the saved offset on, and return the offset to resume at. */
  function ScanLog(ps: seq<PacketPair>, content: string, side: Side, start: nat): (seq<PacketPair>, nat) {
    var from := if start > 0 && |content| < start then 0 else start;
    (FoldPieces(ps, side, Pieces(content[from..])), ResumeOffset(content, from))
  }

  /** A log that has become shorter than the saved offset is read from its start. */
  lemma ShorterLogIsReread(ps: seq<PacketPair>, content: string, side: Side, start: nat)
    requires |content| < start
    ensures ScanLog(ps, content, side, start) == ScanLog(ps, content, side, 0)
    ensures ScanLog(ps, content, side, start).0 == FoldPieces(ps, side, Pieces(content))
  {
    hide FoldPieces, Pieces, ResumeOffset;
    assert content[0..] == content;
  }

  datatype CacheState = CacheState(pairs: seq<PacketPair>, serverOffset: nat, clientOffset: nat)

  const EMPTY_CACHE := CacheState([], 0, 0)

  /** The first step of api_packets: scan both logs. */
  function Refresh(c: CacheState, serverLog: string, clientLog: string): CacheState {
    var (ps, so) := ScanLog(c.pairs, serverLog, ServerSide, c.serverOffset);
    var (ps', co) := ScanLog(ps, clientLog, ClientSide, c.clientOffset);
    CacheState(ps', so, co)
  }

  // ---- The cache as a map from uids to the two lines ----

  type Lines = map<string, (string, string)>

  function MapPut(m: Lines, uid: string, side: Side, line: string): Lines {
    var before := if uid in m then m[uid] else ("", "");
    m[uid := if side.ServerSide? then (line, before.1) else (before.0, line)]
  }

  function MapPiece(m: Lines, side: Side, piece: string): Lines {
    match Key(piece)
    case Some(uid) => MapPut(m, uid, side, LineText(piece))
    case None => m
  }

  function MapFold(m: Lines, side: Side, pieces: seq<string>): Lines
    decreases |pieces|
  {
    if pieces == [] then m else MapFold(MapPiece(m, side, pieces[0]), side, pieces[1..])
  }

  /** One full scan of both logs from nothing. */
  function FullScan(serverLog: string, clientLog: string): Lines {
    MapFold(MapFold(map[], ServerSide, Pieces(serverLog)), ClientSide, Pieces(clientLog))
  }

  predicate Distinct(ps: seq<PacketPair>) {
    forall i, j :: 0 <= i < j < |ps| ==> ps[i].uid != ps[j].uid
  }

  ghost function Uids(ps: seq<PacketPair>): set<string> {
    set i | 0 <= i < |ps| :: ps[i].uid
  }

  ghost function MapOf(ps: seq<PacketPair>): Lines {
    map uid | uid in Uids(ps) :: var e := ps[IndexIn(ps, uid)]; (e.serverLine, e.clientLine)
  }

  ghost function IndexIn(ps: seq<PacketPair>, uid: string): (i: nat)
    requires uid in Uids(ps)
    ensures i < |ps| && ps[i].uid == uid
  {
    IndexOf(ps, uid)
  }

  lemma MapOfAt(ps: seq<PacketPair>, i: nat)
    requires Distinct(ps) && i < |ps|
    ensures ps[i].uid in MapOf(ps) && MapOf(ps)[ps[i].uid] == (ps[i].serverLine, ps[i].clientLine)
  {
    assert ps[i].uid in Uids(ps) && IndexIn(ps, ps[i].uid) == i;
  }

  lemma PutPairShape(ps: seq<PacketPair>, uid: string, side: Side, line: string)
    requires Distinct(ps)
    ensures var r, i := PutPair(ps, uid, side, line), IndexOf(ps, uid);
            && |r| == Max(|ps|, i + 1) && Distinct(r)
            && r[i] == (if i < |ps| then ps[i] else PacketPair(uid, "", "")).With(side, line)
            && r[i].uid == uid
            && forall k :: 0 <= k < |ps| && k != i ==> r[k] == ps[k] && ps[k].uid != uid
  {
  }

  lemma PutPairUids(ps: seq<PacketPair>, uid: string, side: Side, line: string)
    requires Distinct(ps)
    ensures Uids(PutPair(ps, uid, side, line)) == Uids(ps) + {uid}
  {
    var r, i := PutPair(ps, uid, side, line), IndexOf(ps, uid);
    PutPairShape(ps, uid, side, line);
    hide PutPair, IndexOf;
    forall u
      ensures u in Uids(r) <==> u in Uids(ps) + {uid}
    {
      if u in Uids(ps) {
        var k :| 0 <= k < |ps| && ps[k].uid == u;
        assert r[k].uid == u;
      }
      assert r[i].uid == uid;
    }
  }

  /** The entry that the map view shows for one uid after a put. */
  lemma PutPairAt(ps: seq<PacketPair>, uid: string, side: Side, line: string, u: string)
    requires Distinct(ps) && u in Uids(PutPair(ps, uid, side, line))
    ensures u != uid ==> u in Uids(ps) && MapOf(PutPair(ps, uid, side, line))[u] == MapOf(ps)[u]
  {
    var r := PutPair(ps, uid, side, line);
    var k := IndexIn(r, u);
    PutPairShape(ps, uid, side, line);
    MapOfAt(r, k);
    hide PutPair, MapOf;
    if u != uid {
      assert r[k] == ps[k];
      MapOfAt(ps, k);
      assert ps[k].uid in Uids(ps);
    }
  }

  lemma PutPairAtUid(ps: seq<PacketPair>, uid: string, side: Side, line: string)
    requires Distinct(ps)
    ensures uid in MapOf(PutPair(ps, uid, side, line))
    ensures MapOf(PutPair(ps, uid, side, line))[uid] == MapPut(MapOf(ps), uid, side, line)[uid]
  {
    var r, i := PutPair(ps, uid, side, line), IndexOf(ps, uid);
    PutPairShape(ps, uid, side, line);
    MapOfAt(r, i);
    MapOfKeys(ps);
    if i < |ps| {
      MapOfAt(ps, i);
    } else {
      NotIndexed(ps, uid);
    }
    hide PutPair, IndexOf, Uids, MapOf, Distinct;
    assert r[i] == (if i < |ps| then ps[i] else PacketPair(uid, "", "")).With(side, line);
  }

  lemma PutPairIsMapPut(ps: seq<PacketPair>, uid: string, side: Side, line: string)
    requires Distinct(ps)
    ensures Distinct(PutPair(ps, uid, side, line))
    ensures MapOf(PutPair(ps, uid, side, line)) == MapPut(MapOf(ps), uid, side, line)
  {
    PutPairShape(ps, uid, side, line);
    PutPairUids(ps, uid, side, line);
    PutPairAtUid(ps, uid, side, line);
    var r, m := PutPair(ps, uid, side, line), MapPut(MapOf(ps), uid, side, line);
    MapOfKeys(ps);
    MapOfKeys(r);
    forall u | u in MapOf(r)
      ensures MapOf(r)[u] == m[u]
    {
      hide *;
      if u != uid {
        PutPairAt(ps, uid, side, line, u);
        MapPutOther(MapOf(ps), uid, side, line, u);
      }
    }
    hide *;
    MapPutKeys(MapOf(ps), uid, side, line);
    SameLines(MapOf(r), m);
  }

  lemma SameLines(a: Lines, b: Lines)
    requires a.Keys == b.Keys && forall u :: u in a ==> a[u] == b[u]
    ensures a == b
  {
  }

  lemma MapPutKeys(m: Lines, uid: string, side: Side, line: string)
    ensures MapPut(m, uid, side, line).Keys == m.Keys + {uid}
  {
  }

  lemma MapPutOther(m: Lines, uid: string, side: Side, line: string, u: string)
    requires u in m && u != uid
    ensures u in MapPut(m, uid, side, line) && MapPut(m, uid, side, line)[u] == m[u]
  {
  }

  lemma MapOfKeys(ps: seq<PacketPair>)
    ensures MapOf(ps).Keys == Uids(ps)
  {
  }

  lemma NotIndexed(ps: seq<PacketPair>, uid: string)
    requires IndexOf(ps, uid) == |ps|
    ensures uid !in Uids(ps)
  {
  }

  lemma {:induction false} FoldIsMapFold(ps: seq<PacketPair>, side: Side, pieces: seq<string>)
    requires Distinct(ps)
    ensures Distinct(FoldPieces(ps, side, pieces))
    ensures MapOf(FoldPieces(ps, side, pieces)) == MapFold(MapOf(ps), side, pieces)
    decreases |pieces|
  {
    hide PutPair, MapPut, MapOf, Key, LineText;
    if pieces != [] {
      match Key(pieces[0]) {
        case Some(uid) => PutPairIsMapPut(ps, uid, side, LineText(pieces[0]));
        case None =>
      }
      FoldIsMapFold(PutPiece(ps, side, pieces[0]), side, pieces[1..]);
    }
  }

  // ---- What a full scan finds ----

  /** The text of the last piece filed under a uid; empty if there is none. */
  ghost predicate IsLatest(ps: seq<string>, uid: string, line: string) {
    if HasKey(ps, uid) then
      exists i :: 0 <= i < |ps| && Key(ps[i]) == Some(uid) && line == LineText(ps[i]) &&
        forall j :: i < j < |ps| ==> Key(ps[j]) != Some(uid)
    else line == ""
  }

  lemma LatestCons(p: string, ps: seq<string>, uid: string, line: string)
    requires HasKey(ps, uid) && IsLatest(ps, uid, line)
    ensures IsLatest([p] + ps, uid, line)
  {
    hide Key, LineText;
    HasKeyCons(p, ps, uid);
    var all := [p] + ps;
    var i :| 0 <= i < |ps| && Key(ps[i]) == Some(uid) && line == LineText(ps[i]) &&
      forall j :: i < j < |ps| ==> Key(ps[j]) != Some(uid);
    assert all[i + 1] == ps[i];
    forall j | i + 1 < j < |all|
      ensures Key(all[j]) != Some(uid)
    {
      assert all[j] == ps[j - 1];
    }
  }

  lemma LatestIsFirst(p: string, ps: seq<string>, uid: string)
    requires Key(p) == Some(uid) && !HasKey(ps, uid)
    ensures IsLatest([p] + ps, uid, LineText(p))
  {
    hide Key, LineText;
    HasKeyCons(p, ps, uid);
    var all := [p] + ps;
    assert all[0] == p;
    forall j | 0 < j < |all|
      ensures Key(all[j]) != Some(uid)
    {
      assert all[j] == ps[j - 1];
    }
  }

  /** The two lines a map holds for a uid; empty ones if it has none. */
  function LinesFor(m: Lines, uid: string): (string, string) {
    if uid in m then m[uid] else ("", "")
  }

  function LineOf(lines: (string, string), side: Side): string {
    if side == ServerSide then lines.0 else lines.1
  }

  function OtherSide(side: Side): Side {
    if side == ServerSide then ClientSide else ServerSide
  }

  lemma MapPieceFor(m: Lines, side: Side, p: string, uid: string)
    ensures var r := MapPiece(m, side, p);
      && (uid in r <==> uid in m || Key(p) == Some(uid))
      && LineOf(LinesFor(r, uid), side) ==
        (if Key(p) == Some(uid) then LineText(p) else LineOf(LinesFor(m, uid), side))
      && LineOf(LinesFor(r, uid), OtherSide(side)) == LineOf(LinesFor(m, uid), OtherSide(side))
  {
    hide Key, LineText;
  }

  /** Folding one log leaves for every uid the latest of its lines on that side, and the other side as it was. */
  lemma {:induction false} FoldFindsLatest(m: Lines, side: Side, ps: seq<string>, uid: string)
    ensures var r := MapFold(m, side, ps);
      && (uid in r <==> uid in m || HasKey(ps, uid))
      && (if HasKey(ps, uid) then IsLatest(ps, uid, LineOf(LinesFor(r, uid), side))
          else LineOf(LinesFor(r, uid), side) == LineOf(LinesFor(m, uid), side))
      && LineOf(LinesFor(r, uid), OtherSide(side)) == LineOf(LinesFor(m, uid), OtherSide(side))
    decreases |ps|
  {
    hide Key, LineText, MapPiece, HasKey, IsLatest, LineOf, LinesFor;
    if ps == [] {
      assert !HasKey(ps, uid) by { NothingFiled(uid); }
    } else {
      var p, rest := ps[0], ps[1..];
      assert ps == [p] + rest;
      HasKeyCons(p, rest, uid);
      MapPieceFor(m, side, p, uid);
      FoldFindsLatest(MapPiece(m, side, p), side, rest, uid);
      if HasKey(rest, uid) {
        LatestCons(p, rest, uid, LineOf(LinesFor(MapFold(m, side, ps), uid), side));
      } else if Key(p) == Some(uid) {
        LatestIsFirst(p, rest, uid);
      }
    }
  }

  lemma NothingFiled(uid: string)
    ensures !HasKey([], uid)
  {
  }

  /** A full scan knows the uids filed in either log, each with its latest line in the one and in the other. */
  lemma FullScanIsLatest(serverLog: string, clientLog: string, uid: string)
    ensures var m := FullScan(serverLog, clientLog);
      && (uid in m <==> HasKey(Pieces(serverLog), uid) || HasKey(Pieces(clientLog), uid))
      && (uid in m ==> IsLatest(Pieces(serverLog), uid, m[uid].0) && IsLatest(Pieces(clientLog), uid, m[uid].1))
  {
    hide MapFold, HasKey, Pieces, Key;
    FoldFindsLatest(map[], ServerSide, Pieces(serverLog), uid);
    FoldFindsLatest(MapFold(map[], ServerSide, Pieces(serverLog)), ClientSide, Pieces(clientLog), uid);
  }

  // ---- Scanning again from the last line start loses nothing and adds nothing ----

  lemma {:induction false} MapFoldAppend(m: Lines, side: Side, a: seq<string>, b: seq<string>)
    ensures MapFold(m, side, a + b) == MapFold(MapFold(m, side, a), side, b)
    decreases |a|
  {
    hide MapPiece;
    if a == [] {
      assert a + b == b;
    } else {
      assert (a + b)[1..] == a[1..] + b;
      MapFoldAppend(MapPiece(m, side, a[0]), side, a[1..], b);
    }
  }

  /** A line put early is forgotten if its uid is put again later. */
  lemma {:induction false} PutForgotten(m: Lines, uid: string, side: Side, line: string, ps: seq<string>)
    ensures HasKey(ps, uid) ==> MapFold(MapPut(m, uid, side, line), side, ps) == MapFold(m, side, ps)
    decreases |ps|
  {
    hide Key, LineText;
    if ps != [] {
      var p, rest := ps[0], ps[1..];
      assert ps == [p] + rest;
      HasKeyCons(p, rest, uid);
      match Key(p)
      case Some(u) =>
        if u == uid {
          assert MapPiece(MapPut(m, uid, side, line), side, p) == MapPiece(m, side, p);
        } else {
          assert MapPiece(MapPut(m, uid, side, line), side, p) == MapPut(MapPiece(m, side, p), uid, side, line);
          PutForgotten(MapPiece(m, side, p), uid, side, line, rest);
        }
      case None => PutForgotten(m, uid, side, line, rest);
    }
  }

  lemma {:induction false} FoldForgotten(m: Lines, side: Side, early: seq<string>, later: seq<string>)
    requires forall uid :: HasKey(early, uid) ==> HasKey(later, uid)
    ensures MapFold(MapFold(m, side, early), side, later) == MapFold(m, side, later)
    decreases |early|
  {
    hide Key, LineText, MapPut, HasKey;
    if early != [] {
      var p, rest := early[0], early[1..];
      assert early == [p] + rest;
      forall uid | HasKey(rest, uid)
        ensures HasKey(later, uid)
      {
        HasKeyCons(p, rest, uid);
      }
      FoldForgotten(MapPiece(m, side, p), side, rest, later);
      match Key(p) {
        case Some(uid) =>
          HasKeyCons(p, rest, uid);
          PutForgotten(m, uid, side, LineText(p), later);
        case None =>
      }
    }
  }

  predicate LineStart(content: string, off: nat) {
    off <= |content| && (off == 0 || content[off - 1] == '\n')
  }

  /** Folding a text, then refolding a longer version from a line start, equals folding the longer version once. */
  lemma ResumeLosesNothing(m: Lines, side: Side, seen: string, now: string, off: nat)
    requires seen <= now && LineStart(seen, off)
    ensures MapFold(MapFold(m, side, Pieces(seen)), side, Pieces(now[off..])) == MapFold(m, side, Pieces(now))
  {
    hide Pieces, MapFold, HasKey;
    var a, b, c := seen[..off], seen[off..], now[off..];
    assert seen == a + b && now == a + c && b <= c;
    PiecesSplit(a, b);
    PiecesSplit(a, c);
    MapFoldAppend(m, side, Pieces(a), Pieces(b));
    MapFoldAppend(m, side, Pieces(a), Pieces(c));
    forall uid | HasKey(Pieces(b), uid)
      ensures HasKey(Pieces(c), uid)
    {
      PiecesPrefixKeys(b, c, uid);
    }
    FoldForgotten(MapFold(m, side, Pieces(a)), side, Pieces(b), Pieces(c));
  }

  lemma {:induction false} StepBackAtLineStart(content: string, start: nat, pos: nat)
    requires LineStart(content, start) && start <= pos < |content|
    ensures LineStart(content, StepBack(content, start, pos))
    decreases pos
  {
    if pos > start && content[pos] != '\n' {
      StepBackAtLineStart(content, start, pos - 1);
    }
  }

  /** The saved offset is always the start of a line. */
  lemma ResumeAtLineStart(content: string, start: nat)
    requires LineStart(content, start)
    ensures LineStart(content, ResumeOffset(content, start))
  {
    if |content| > start && content[|content| - 1] != '\n' {
      StepBackAtLineStart(content, start, |content| - 1);
    }
  }

  lemma {:induction false} StepBackIsLast(content: string, start: nat, pos: nat, i: nat)
    requires start <= pos < |content| && StepBack(content, start, pos) <= i <= pos && i > start
    ensures content[i] != '\n'
    decreases pos
  {
    if pos > start && content[pos] != '\n' && i < pos {
      StepBackIsLast(content, start, pos - 1, i);
    }
  }

  /** It is the last one there is: no newline comes after it, but for one at the very place the scan began. */
  lemma ResumeAtLastLine(content: string, start: nat, i: nat)
    requires start <= |content| && ResumeOffset(content, start) <= i < |content| && i > start
    ensures content[i] != '\n'
  {
    StepBackIsLast(content, start, |content| - 1, i);
  }

  /** Folds of the two sides touch different halves of the pairs, so their order does not matter. */
  lemma {:induction false} PutCommutesFold(m: Lines, uid: string, line: string, ps: seq<string>)
    ensures MapFold(MapPut(m, uid, ServerSide, line), ClientSide, ps) ==
      MapPut(MapFold(m, ClientSide, ps), uid, ServerSide, line)
    decreases |ps|
  {
    hide Key, LineText;
    if ps != [] {
      assert MapPiece(MapPut(m, uid, ServerSide, line), ClientSide, ps[0]) ==
        MapPut(MapPiece(m, ClientSide, ps[0]), uid, ServerSide, line);
      PutCommutesFold(MapPiece(m, ClientSide, ps[0]), uid, line, ps[1..]);
    }
  }

  lemma {:induction false} FoldsCommute(m: Lines, a: seq<string>, b: seq<string>)
    ensures MapFold(MapFold(m, ServerSide, a), ClientSide, b) == MapFold(MapFold(m, ClientSide, b), ServerSide, a)
    decreases |a|
  {
    hide Key, LineText, MapPut;
    if a != [] {
      match Key(a[0]) {
        case Some(uid) => PutCommutesFold(m, uid, LineText(a[0]), b);
        case None =>
      }
      FoldsCommute(MapPiece(m, ServerSide, a[0]), a[1..], b);
    }
  }

  // ---- Any sequence of appends and scans ----

  datatype World = World(serverLog: string, clientLog: string, serverSeen: nat, clientSeen: nat, cache: CacheState)

  /** Logs grow by any text, cut anywhere; a call scans both; a restarted control server starts with an empty cache. */
  datatype LogEvent = AppendServer(text: string) | AppendClient(text: string) | Call | Restart

  const FRESH_WORLD := World("", "", 0, 0, EMPTY_CACHE)

  function Step(w: World, e: LogEvent): World {
    match e
    case AppendServer(text) => w.(serverLog := w.serverLog + text)
    case AppendClient(text) => w.(clientLog := w.clientLog + text)
    case Call =>
      World(w.serverLog, w.clientLog, |w.serverLog|, |w.clientLog|, Refresh(w.cache, w.serverLog, w.clientLog))
    case Restart => World(w.serverLog, w.clientLog, 0, 0, EMPTY_CACHE)
  }

  function Steps(w: World, es: seq<LogEvent>): World
    decreases |es|
  {
    if es == [] then w else Steps(Step(w, es[0]), es[1..])
  }

  ghost predicate CacheInv(w: World) {
    && w.serverSeen <= |w.serverLog| && w.clientSeen <= |w.clientLog|
    && Distinct(w.cache.pairs)
    && MapOf(w.cache.pairs) == FullScan(w.serverLog[..w.serverSeen], w.clientLog[..w.clientSeen])
    && LineStart(w.serverLog[..w.serverSeen], w.cache.serverOffset)
    && LineStart(w.clientLog[..w.clientSeen], w.cache.clientOffset)
  }

  lemma RefreshRescans(w: World)
    requires CacheInv(w)
    ensures CacheInv(Step(w, Call))
  {
    hide MapFold, MapOf, FoldPieces, Pieces, ResumeOffset, Distinct;
    var s, c, ps := w.serverLog, w.clientLog, w.cache.pairs;
    var s0, c0 := s[..w.serverSeen], c[..w.clientSeen];
    var so, co := w.cache.serverOffset, w.cache.clientOffset;
    var newServer, newClient := Pieces(s[so..]), Pieces(c[co..]);
    FoldIsMapFold(ps, ServerSide, newServer);
    FoldIsMapFold(FoldPieces(ps, ServerSide, newServer), ClientSide, newClient);
    var base := MapFold(map[], ServerSide, Pieces(s0));
    FoldsCommute(base, newServer, Pieces(c0));
    ResumeLosesNothing(map[], ServerSide, s0, s, so);
    ResumeLosesNothing(MapFold(map[], ServerSide, Pieces(s)), ClientSide, c0, c, co);
    assert s[..|s|] == s && c[..|c|] == c;
    ResumeAtLineStart(s, so);
    ResumeAtLineStart(c, co);
  }

  lemma StepKeepsCache(w: World, e: LogEvent)
    requires CacheInv(w)
    ensures CacheInv(Step(w, e))
  {
    hide FullScan, MapOf, Refresh, Distinct;
    match e
    case AppendServer(text) => assert (w.serverLog + text)[..w.serverSeen] == w.serverLog[..w.serverSeen];
    case AppendClient(text) => assert (w.clientLog + text)[..w.clientSeen] == w.clientLog[..w.clientSeen];
    case Call => RefreshRescans(w);
    case Restart =>
      FreshCache();
      assert w.serverLog[..0] == "" && w.clientLog[..0] == "";
  }

  lemma {:induction false} StepsKeepCache(w: World, es: seq<LogEvent>)
    requires CacheInv(w)
    ensures CacheInv(Steps(w, es))
    decreases |es|
  {
    hide CacheInv, Step;
    if es != [] {
      StepKeepsCache(w, es[0]);
      StepsKeepCache(Step(w, es[0]), es[1..]);
    }
  }

  lemma FreshCache()
    ensures CacheInv(FRESH_WORLD)
  {
    assert MapOf([]) == map[];
  }

  /** After any history of appends and calls, a call leaves the cache equal to one full scan of the current logs. */
  lemma IncrementalEqualsFullScan(es: seq<LogEvent>)
    ensures var w := Steps(FRESH_WORLD, es + [Call]);
            && Distinct(w.cache.pairs)
            && MapOf(w.cache.pairs) == FullScan(w.serverLog, w.clientLog)
            && LineStart(w.serverLog, w.cache.serverOffset) && LineStart(w.clientLog, w.cache.clientOffset)
  {
    hide FullScan, MapOf, Distinct, Refresh;
    FreshCache();
    StepsAppend(FRESH_WORLD, es, [Call]);
    StepsKeepCache(FRESH_WORLD, es);
    var w := Steps(FRESH_WORLD, es);
    StepKeepsCache(w, Call);
    assert [Call][1..] == [];
    var w' := Step(w, Call);
    assert w'.serverLog[..|w'.serverLog|] == w'.serverLog && w'.clientLog[..|w'.clientLog|] == w'.clientLog;
  }

  lemma {:induction false} StepsAppend(w: World, a: seq<LogEvent>, b: seq<LogEvent>)
    ensures Steps(w, a + b) == Steps(Steps(w, a), b)
    decreases |a|
  {
    hide Step;
    if a == [] {
      assert a + b == b;
    } else {
      assert (a + b)[1..] == a[1..] + b;
      StepsAppend(Step(w, a[0]), a[1..], b);
    }
  }
}
