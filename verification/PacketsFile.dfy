/** The rewriting of packets.jsonl by api_packets. */
module PacketsFile {
  import opened Bytes
  import opened Results
  import opened LogLines
  import opened PacketsCache
  import opened PacketsScan

  datatype Record = Record(uid: string, line: string)

  predicate Braced(line: string) {
    line != "" && line[0] == '{'
  }

  /** What api_packets reads back from one line of packets.jsonl. */
  function RecordOf(line: string): Option<Record> {
    if Braced(line) && UidKey(line) != "" then Some(Record(UidKey(line), line)) else None
  }

  function RecordsOfLines(lines: seq<string>): seq<Record> {
    if lines == [] then []
    else
      match RecordOf(lines[0])
      case Some(r) => [r] + RecordsOfLines(lines[1..])
      case None => RecordsOfLines(lines[1..])
  }

  function LineTexts(pieces: seq<string>): (ls: seq<string>)
    ensures |ls| == |pieces|
    ensures forall i :: 0 <= i < |ls| ==> ls[i] == LineText(pieces[i])
  {
    seq(|pieces|, i requires 0 <= i < |pieces| => LineText(pieces[i]))
  }

  function Records(file: string): seq<Record> {
    RecordsOfLines(LineTexts(Pieces(file)))
  }

  predicate Cached(ps: seq<PacketPair>, uid: string) {
    IndexOf(ps, uid) < |ps|
  }

  /** The lines kept from the old file: those whose uid the cache does not cover. */
  function OrphanLines(rs: seq<Record>, ps: seq<PacketPair>): seq<string> {
    if rs == [] then []
    else if Cached(ps, rs[0].uid) then OrphanLines(rs[1..], ps)
    else [rs[0].line] + OrphanLines(rs[1..], ps)
  }

  /** The line to publish for a pair: the sender's, which the server line's direction names. */
  function Pick(e: PacketPair): string {
    if e.serverLine != "" && e.clientLine != "" then
      if Direction(e.serverLine) == "Server -> Client" then e.serverLine
      else if Direction(e.serverLine) == "Client -> Server" then e.clientLine
      else e.serverLine
    else if e.serverLine != "" then e.serverLine
    else e.clientLine
  }

  function Picks(ps: seq<PacketPair>): seq<string> {
    if ps == [] then [] else (if Pick(ps[0]) != "" then [Pick(ps[0])] else []) + Picks(ps[1..])
  }

  function Render(lines: seq<string>): string {
    if lines == [] then "" else lines[0] + "\n" + Render(lines[1..])
  }

  function Rewrite(file: string, ps: seq<PacketPair>): string {
    Render(OrphanLines(Records(file), ps) + Picks(ps))
  }

  // ---- Lines survive being written and read back ----

  /** What LineText can yield of one fgets piece. */
  predicate Clean(line: string) {
    '\n' !in line && '\0' !in line && Trim(line) == line && |line| < LINE_BUFFER
  }

  lemma {:induction false} TrimForm(s: string)
    ensures Trim(Trim(s)) == Trim(s)
    ensures Trim(s) != "" ==> Trim(s)[|Trim(s)| - 1] != '\n'
    decreases |s|
  {
    if s != "" && (s[|s| - 1] == '\n' || s[|s| - 1] == '\r') {
      TrimForm(s[..|s| - 1]);
    }
  }

  lemma {:induction false} CTextForm(s: string)
    ensures '\0' !in CText(s)
    decreases |s|
  {
    if s != "" && s[0] != '\0' {
      CTextForm(s[1..]);
    }
  }

  lemma {:induction false} CTextSame(s: string)
    requires '\0' !in s
    ensures CText(s) == s
    decreases |s|
  {
    if s != "" {
      assert s == [s[0]] + s[1..];
      CTextSame(s[1..]);
    }
  }

  lemma {:induction false} TakeLengthForm(s: string, room: nat)
    ensures forall i :: 0 <= i < TakeLength(s, room) - 1 ==> s[i] != '\n'
    decreases |s|
  {
    if s != "" && room > 0 && s[0] != '\n' {
      TakeLengthForm(s[1..], room - 1);
    }
  }

  lemma PieceTextClean(s: string)
    ensures Clean(LineText(s[..TakeLength(s, LINE_BUFFER - 1)]))
  {
    var n := TakeLength(s, LINE_BUFFER - 1);
    var piece := s[..n];
    TakeLengthForm(s, LINE_BUFFER - 1);
    CTextForm(piece);
    var c := CText(piece);
    TrimForm(c);
    var t := Trim(c);
    forall i | 0 <= i < |t|
      ensures t[i] != '\n' && t[i] != '\0'
    {
      assert t[i] == s[i] && t[i] == c[i];
      if i == n - 1 {
        assert i == |t| - 1;
      }
    }
  }

  lemma {:induction false} PieceTextsClean(s: string)
    ensures forall p :: p in Pieces(s) ==> Clean(LineText(p))
    decreases |s|
  {
    hide Clean, LineText, TakeLength;
    if s != "" {
      var n := TakeLength(s, LINE_BUFFER - 1);
      PieceTextClean(s);
      PieceTextsClean(s[n..]);
    }
  }

  /** fgets on a text that starts with a line: the whole line, when it fits together with its newline. */
  lemma LineTextOfLine(line: string)
    requires Clean(line)
    ensures LineText(line) == line && LineText(line + "\n") == line
  {
    CTextSame(line);
    CTextSame(line + "\n");
    hide CText;
    TrimOfLine(line);
  }

  lemma TrimOfLine(line: string)
    ensures Trim(line + "\n") == Trim(line)
  {
    assert (line + "\n")[..|line|] == line;
  }

  lemma NoRecordInBlank()
    ensures LineText("\n") == "" && RecordOf("") == None
  {
    assert CText("\n") == "\n";
    assert Trim("\n") == Trim("\n"[..0]);
  }

  /** The records of a text that starts with a written line. */
  lemma FirstRecord(line: string, rest: string)
    requires Clean(line)
    ensures Records(line + "\n" + rest) == RecordsOfLines([line]) + Records(rest)
  {
    hide Clean, RecordOf, LineText;
    var s, room := line + "\n" + rest, LINE_BUFFER - 1;
    assert '\n' !in line && |line| <= room by { CleanFacts(line); }
    TakeLengthOfLine(line, rest, room);
    LineTextOfLine(line);
    if |line| < room {
      assert s[..|line| + 1] == line + "\n" && s[|line| + 1..] == rest;
      assert Pieces(s) == [line + "\n"] + Pieces(rest);
      RecordsCons(line + "\n", Pieces(rest));
    } else {
      var tail := "\n" + rest;
      assert s[..room] == line && s[room..] == tail;
      TakeLengthOfLine("", rest, room);
      assert "" + "\n" + rest == tail;
      assert tail[..1] == "\n" && tail[1..] == rest;
      assert Pieces(tail) == ["\n"] + Pieces(rest);
      assert Pieces(s) == [line] + Pieces(tail);
      RecordsCons(line, Pieces(tail));
      RecordsCons("\n", Pieces(rest));
      NoRecordInBlank();
    }
  }

  lemma CleanFacts(line: string)
    requires Clean(line)
    ensures '\n' !in line && |line| <= LINE_BUFFER - 1
  {
  }

  lemma RecordsCons(p: string, ps: seq<string>)
    ensures RecordsOfLines(LineTexts([p] + ps)) == RecordsOfLines([LineText(p)]) + RecordsOfLines(LineTexts(ps))
  {
    hide RecordOf, LineText;
    assert LineTexts([p] + ps)[1..] == LineTexts(ps);
  }

  /** Reading back what was written gives the records of the written lines. */
  lemma {:induction false} RecordsOfRender(lines: seq<string>)
    requires forall l :: l in lines ==> Clean(l)
    ensures Records(Render(lines)) == RecordsOfLines(lines)
    decreases |lines|
  {
    hide Clean, RecordOf, LineText;
    if lines == [] {
      assert Pieces("") == [];
    } else {
      FirstRecord(lines[0], Render(lines[1..]));
      RecordsOfRender(lines[1..]);
    }
  }

  // ---- What the cache and the file hold ----

  predicate GoodLine(uid: string, line: string) {
    line == "" || (Clean(line) && uid != "" && UidKey(line) == uid)
  }

  predicate GoodPair(e: PacketPair) {
    GoodLine(e.uid, e.serverLine) && GoodLine(e.uid, e.clientLine) && (e.serverLine != "" || e.clientLine != "")
  }

  ghost predicate GoodCache(ps: seq<PacketPair>) {
    Distinct(ps) && forall e :: e in ps ==> GoodPair(e)
  }

  lemma PutKeepsGood(ps: seq<PacketPair>, side: Side, piece: string)
    requires GoodCache(ps) && Clean(LineText(piece))
    ensures GoodCache(PutPiece(ps, side, piece))
  {
    match Key(piece)
    case None =>
    case Some(uid) =>
      var line := LineText(piece);
      PutPairShape(ps, uid, side, line);
      var r, i := PutPair(ps, uid, side, line), IndexOf(ps, uid);
      assert line != "";
      hide LineText, UidKey, Clean, PutPair, IndexOf;
      forall e | e in r
        ensures GoodPair(e)
      {
        var k :| 0 <= k < |r| && r[k] == e;
        if k == i {
          assert i < |ps| ==> ps[i] in ps;
        } else {
          assert ps[k] in ps;
        }
      }
  }

  lemma {:induction false} FoldKeepsGood(ps: seq<PacketPair>, side: Side, pieces: seq<string>)
    requires GoodCache(ps) && forall p :: p in pieces ==> Clean(LineText(p))
    ensures GoodCache(FoldPieces(ps, side, pieces))
    decreases |pieces|
  {
    hide GoodCache, PutPiece, Clean, LineText;
    if pieces != [] {
      PutKeepsGood(ps, side, pieces[0]);
      FoldKeepsGood(PutPiece(ps, side, pieces[0]), side, pieces[1..]);
    }
  }

  lemma RefreshKeepsGood(c: CacheState, serverLog: string, clientLog: string)
    requires GoodCache(c.pairs)
    ensures GoodCache(Refresh(c, serverLog, clientLog).pairs)
  {
    hide GoodCache, FoldPieces, Pieces, Clean, ResumeOffset;
    var sf := if c.serverOffset > 0 && |serverLog| < c.serverOffset then 0 else c.serverOffset;
    var cf := if c.clientOffset > 0 && |clientLog| < c.clientOffset then 0 else c.clientOffset;
    PieceTextsClean(serverLog[sf..]);
    PieceTextsClean(clientLog[cf..]);
    FoldKeepsGood(c.pairs, ServerSide, Pieces(serverLog[sf..]));
    FoldKeepsGood(FoldPieces(c.pairs, ServerSide, Pieces(serverLog[sf..])), ClientSide, Pieces(clientLog[cf..]));
  }

  ghost function RecordUids(rs: seq<Record>): set<string> {
    set i | 0 <= i < |rs| :: rs[i].uid
  }

  predicate OnePerUid(rs: seq<Record>) {
    forall i, j :: 0 <= i < j < |rs| ==> rs[i].uid != rs[j].uid
  }

  predicate RecordOk(r: Record) {
    Clean(r.line) && RecordOf(r.line) == Some(r)
  }

  lemma {:induction false} RecordsAreOk(lines: seq<string>)
    requires forall l :: l in lines ==> Clean(l)
    ensures forall r :: r in RecordsOfLines(lines) ==> RecordOk(r)
    decreases |lines|
  {
    hide Clean;
    if lines != [] {
      RecordsAreOk(lines[1..]);
    }
  }

  lemma FileRecordsOk(file: string)
    ensures forall r :: r in Records(file) ==> RecordOk(r)
  {
    hide Clean, RecordOk, Pieces, LineText;
    PieceTextsClean(file);
    forall l | l in LineTexts(Pieces(file))
      ensures Clean(l)
    {
    }
    RecordsAreOk(LineTexts(Pieces(file)));
  }

  lemma {:induction false} RecordsAppend(a: seq<string>, b: seq<string>)
    ensures RecordsOfLines(a + b) == RecordsOfLines(a) + RecordsOfLines(b)
    decreases |a|
  {
    hide RecordOf;
    if a == [] {
      assert a + b == b;
    } else {
      assert (a + b)[1..] == a[1..] + b;
      RecordsAppend(a[1..], b);
    }
  }

  /** The uncovered records of a file. */
  function Uncovered(rs: seq<Record>, ps: seq<PacketPair>): seq<Record> {
    if rs == [] then []
    else if Cached(ps, rs[0].uid) then Uncovered(rs[1..], ps)
    else [rs[0]] + Uncovered(rs[1..], ps)
  }

  /** The records of the published pairs. */
  function Published(ps: seq<PacketPair>): seq<Record> {
    if ps == [] then []
    else (if Braced(Pick(ps[0])) then [Record(ps[0].uid, Pick(ps[0]))] else []) + Published(ps[1..])
  }

  lemma {:induction false} OrphanRecords(rs: seq<Record>, ps: seq<PacketPair>)
    requires forall r :: r in rs ==> RecordOk(r)
    ensures RecordsOfLines(OrphanLines(rs, ps)) == Uncovered(rs, ps)
    ensures forall l :: l in OrphanLines(rs, ps) ==> Clean(l)
    decreases |rs|
  {
    hide Clean, RecordOf, Cached;
    if rs != [] {
      assert rs[0] in rs;
      OrphanRecords(rs[1..], ps);
    }
  }

  lemma PickIsGood(e: PacketPair)
    ensures GoodPair(e) ==> Pick(e) != "" && Clean(Pick(e)) && UidKey(Pick(e)) == e.uid != ""
  {
    hide Clean, UidKey, Direction;
  }

  lemma {:induction false} PickRecords(ps: seq<PacketPair>)
    requires forall e :: e in ps ==> GoodPair(e)
    ensures RecordsOfLines(Picks(ps)) == Published(ps)
    ensures forall l :: l in Picks(ps) ==> Clean(l)
    decreases |ps|
  {
    hide Clean, UidKey, Pick, GoodPair;
    if ps != [] {
      assert ps[0] in ps;
      PickIsGood(ps[0]);
      PickRecords(ps[1..]);
      var first := [Pick(ps[0])];
      RecordsAppend(first, Picks(ps[1..]));
      assert first[1..] == [];
    }
  }

  /** The records of a rewritten file: the old ones that the cache does not cover, then one for each published pair. */
  lemma RewriteRecords(file: string, ps: seq<PacketPair>)
    requires GoodCache(ps)
    ensures Records(Rewrite(file, ps)) == Uncovered(Records(file), ps) + Published(ps)
  {
    hide Clean, RecordOk, GoodPair, OrphanLines, Picks, Uncovered, Published, Records;
    FileRecordsOk(file);
    OrphanRecords(Records(file), ps);
    PickRecords(ps);
    var lines := OrphanLines(Records(file), ps) + Picks(ps);
    RecordsOfRender(lines);
    RecordsAppend(OrphanLines(Records(file), ps), Picks(ps));
  }

  // ---- The promises ----

  lemma {:induction false} UncoveredUids(rs: seq<Record>, ps: seq<PacketPair>)
    ensures forall u :: u in RecordUids(Uncovered(rs, ps)) <==> u in RecordUids(rs) && !Cached(ps, u)
    ensures OnePerUid(rs) ==> OnePerUid(Uncovered(rs, ps))
    decreases |rs|
  {
    hide Cached;
    if rs != [] {
      UncoveredUids(rs[1..], ps);
      ConsUids(rs[0], rs[1..]);
      assert [rs[0]] + rs[1..] == rs;
      ConsUids(rs[0], Uncovered(rs[1..], ps));
      if OnePerUid(rs) {
        OneMore(rs[0], rs[1..]);
        OneMore(rs[0], Uncovered(rs[1..], ps));
      }
    }
  }

  lemma ConsUids(r: Record, rs: seq<Record>)
    ensures RecordUids([r] + rs) == {r.uid} + RecordUids(rs)
  {
    var all := [r] + rs;
    forall u
      ensures u in RecordUids(all) <==> u in {r.uid} + RecordUids(rs)
    {
      if u in RecordUids(rs) {
        var i :| 0 <= i < |rs| && rs[i].uid == u;
        assert all[i + 1].uid == u;
      }
      assert all[0].uid == r.uid;
    }
  }

  lemma OneMore(r: Record, rs: seq<Record>)
    ensures OnePerUid([r] + rs) <==> OnePerUid(rs) && r.uid !in RecordUids(rs)
  {
    var all := [r] + rs;
    if OnePerUid(all) {
      forall i, j | 0 <= i < j < |rs|
        ensures rs[i].uid != rs[j].uid
      {
        assert all[i + 1].uid != all[j + 1].uid;
      }
      forall i | 0 <= i < |rs|
        ensures rs[i].uid != r.uid
      {
        assert all[0].uid != all[i + 1].uid;
      }
    }
  }

  lemma {:induction false} PublishedUids(ps: seq<PacketPair>)
    requires Distinct(ps)
    ensures OnePerUid(Published(ps))
    ensures forall u :: u in RecordUids(Published(ps)) ==> u in Uids(ps)
    ensures forall e :: e in ps ==> e.uid in Uids(ps) && (e.uid in RecordUids(Published(ps)) <==> Braced(Pick(e)))
    decreases |ps|
  {
    hide Pick, Braced;
    if ps != [] {
      var e, rest := ps[0], ps[1..];
      assert ps == [e] + rest;
      PairUids(e, rest);
      PublishedUids(rest);
      ConsUids(Record(e.uid, Pick(e)), Published(rest));
      OneMore(Record(e.uid, Pick(e)), Published(rest));
      assert e.uid !in Uids(rest);
      assert [] + Published(rest) == Published(rest);
      forall x | x in ps
        ensures x.uid in Uids(ps) && (x.uid in RecordUids(Published(ps)) <==> Braced(Pick(x)))
      {
        assert x == e || x in rest;
      }
    }
  }

  lemma PairUids(e: PacketPair, ps: seq<PacketPair>)
    ensures Uids([e] + ps) == {e.uid} + Uids(ps)
  {
    var all := [e] + ps;
    forall u
      ensures u in Uids(all) <==> u in {e.uid} + Uids(ps)
    {
      if u in Uids(ps) {
        var i :| 0 <= i < |ps| && ps[i].uid == u;
        assert all[i + 1].uid == u;
      }
      assert all[0].uid == e.uid;
    }
  }

  lemma CachedIsUid(ps: seq<PacketPair>, uid: string)
    ensures Cached(ps, uid) <==> uid in Uids(ps)
  {
  }

  lemma OnePerUidJoin(a: seq<Record>, b: seq<Record>)
    requires OnePerUid(a) && OnePerUid(b) && RecordUids(a) !! RecordUids(b)
    ensures OnePerUid(a + b)
  {
    forall i, j | 0 <= i < |a| && 0 <= j < |b|
      ensures a[i].uid != b[j].uid
    {
      assert a[i].uid in RecordUids(a) && b[j].uid in RecordUids(b);
    }
  }

  /** Rewriting keeps one line per uid. */
  lemma RewriteKeepsOnePerUid(file: string, ps: seq<PacketPair>)
    requires GoodCache(ps) && OnePerUid(Records(file))
    ensures OnePerUid(Records(Rewrite(file, ps)))
  {
    hide Records, Rewrite, Cached, RecordUids, OnePerUid, Published, Uncovered, Uids, GoodPair;
    RewriteRecords(file, ps);
    UncoveredUids(Records(file), ps);
    PublishedUids(ps);
    var a, b := Uncovered(Records(file), ps), Published(ps);
    forall u | u in RecordUids(b)
      ensures u !in RecordUids(a)
    {
      CachedIsUid(ps, u);
    }
    OnePerUidJoin(a, b);
  }

  lemma JoinUids(a: seq<Record>, b: seq<Record>)
    ensures RecordUids(a + b) == RecordUids(a) + RecordUids(b)
  {
    var all := a + b;
    forall u
      ensures u in RecordUids(all) <==> u in RecordUids(a) + RecordUids(b)
    {
      if u in RecordUids(a) {
        var i :| 0 <= i < |a| && a[i].uid == u;
        assert all[i].uid == u;
      }
      if u in RecordUids(b) {
        var i :| 0 <= i < |b| && b[i].uid == u;
        assert all[|a| + i].uid == u;
      }
    }
  }

  /** The new file names exactly the old file's uids and the cache's just when every published line is a JSON object. */
  lemma RewriteUidsIff(file: string, ps: seq<PacketPair>)
    requires GoodCache(ps)
    ensures RecordUids(Records(Rewrite(file, ps))) == RecordUids(Records(file)) + Uids(ps)
      <==> forall e :: e in ps ==> Pick(e) != "" && Pick(e)[0] == '{'
  {
    hide Records, Rewrite, Cached, RecordUids, Published, Uncovered, Uids, GoodPair, Pick;
    RewriteRecords(file, ps);
    UncoveredUids(Records(file), ps);
    PublishedUids(ps);
    var a, b := Uncovered(Records(file), ps), Published(ps);
    JoinUids(a, b);
    forall e | e in ps
      ensures e.uid in RecordUids(a + b) <==> Braced(Pick(e))
    {
      CachedIsUid(ps, e.uid);
    }
    if forall e :: e in ps ==> Braced(Pick(e)) {
      forall u
        ensures u in RecordUids(a + b) <==> u in RecordUids(Records(file)) + Uids(ps)
      {
        CachedIsUid(ps, u);
        if u in Uids(ps) {
          var i := IndexIn(ps, u);
          assert ps[i] in ps;
        }
      }
    }
  }

  /** The line of the side that sent a packet, by the server line's direction; the only line, if there is one only. */
  function SenderLine(lines: (string, string)): string {
    if lines.0 == "" then lines.1
    else if lines.1 == "" || Direction(lines.0) != "Client -> Server" then lines.0
    else lines.1
  }

  lemma PickSender(e: PacketPair)
    ensures Pick(e) == SenderLine((e.serverLine, e.clientLine))
  {
    hide Direction;
    assert "Server -> Client"[0] != "Client -> Server"[0];
  }

  /** Of two lines the client's is published exactly when the server's says that the client sent the packet. */
  lemma DirectionDecides(e: PacketPair, dir: string, rest: string)
    requires '\"' !in dir && e.serverLine == "{\"direction\":\"" + dir + "\"" + rest && e.clientLine != ""
    ensures Pick(e) == if dir == "Client -> Server" then e.clientLine else e.serverLine
  {
    hide Direction;
    DirectionReads(dir, rest);
    assert |"Client -> Server"| == |"Server -> Client"| == 16;
    assert "Server -> Client"[0] != "Client -> Server"[0];
  }

  lemma {:induction false} UncoveredMember(rs: seq<Record>, ps: seq<PacketPair>, r: Record)
    ensures r in Uncovered(rs, ps) <==> r in rs && r.uid !in Uids(ps)
    decreases |rs|
  {
    hide Cached, Uids;
    if rs != [] {
      CachedIsUid(ps, rs[0].uid);
      UncoveredMember(rs[1..], ps, r);
      assert rs == [rs[0]] + rs[1..];
    }
  }

  lemma {:induction false} PublishedMember(ps: seq<PacketPair>, r: Record)
    ensures r in Published(ps) <==> exists e :: e in ps && Braced(Pick(e)) && r == Record(e.uid, Pick(e))
    decreases |ps|
  {
    hide Pick, Braced;
    if ps != [] {
      PublishedMember(ps[1..], r);
      assert ps == [ps[0]] + ps[1..];
      assert forall e :: e in ps <==> e == ps[0] || e in ps[1..];
    }
  }

  /** What is published for a cached uid: its sender's line, if that can be read back. */
  lemma PublishedLine(ps: seq<PacketPair>, r: Record)
    requires Distinct(ps) && r.uid in MapOf(ps)
    ensures r in Published(ps) <==> Braced(r.line) && r.line == SenderLine(MapOf(ps)[r.uid])
  {
    hide Pick, Braced, SenderLine, MapOf, Published, Distinct;
    MapOfKeys(ps);
    var i := IndexIn(ps, r.uid);
    MapOfAt(ps, i);
    PickSender(ps[i]);
    PublishedMember(ps, r);
    forall e | e in ps && e.uid == r.uid
      ensures e == ps[i]
    {
      OnlyPair(ps, i, e);
    }
    assert ps[i] in ps;
  }

  lemma OnlyPair(ps: seq<PacketPair>, i: nat, e: PacketPair)
    requires Distinct(ps) && i < |ps| && e in ps && e.uid == ps[i].uid
    ensures e == ps[i]
  {
  }

  /** The records of a rewritten file, one uid at a time. */
  lemma RewriteMember(file: string, ps: seq<PacketPair>, r: Record)
    requires GoodCache(ps)
    ensures r in Records(Rewrite(file, ps)) <==>
      if r.uid in MapOf(ps) then Braced(r.line) && r.line == SenderLine(MapOf(ps)[r.uid]) else r in Records(file)
  {
    hide Records, Rewrite, Published, Uncovered, GoodPair, Braced, SenderLine, MapOf, Uids;
    RewriteRecords(file, ps);
    UncoveredMember(Records(file), ps, r);
    MapOfKeys(ps);
    if r.uid in MapOf(ps) {
      PublishedLine(ps, r);
    } else if r in Published(ps) {
      PublishedUids(ps);
      RecordHasUid(Published(ps), r);
    }
  }

  /** A line adds one record, of its uid, when it opens with a brace and names one; otherwise it adds nothing. */
  lemma LineIsRecordIff(line: string, file: string, r: Record)
    requires Clean(line)
    ensures r in Records(line + "\n" + file) <==>
      || r in Records(file)
      || (line != "" && line[0] == '{' && UidKey(line) != "" && r == Record(UidKey(line), line))
  {
    hide Records, UidKey, Clean;
    FirstRecord(line, file);
    assert [line][1..] == [];
  }

  /** A line of the old file that opens with a brace and names a uid the cache does not cover survives a rewrite. */
  lemma HistoryIsKept(line: string, file: string, ps: seq<PacketPair>)
    requires GoodCache(ps) && Clean(line) && line != "" && line[0] == '{'
    requires UidKey(line) != "" && UidKey(line) !in MapOf(ps)
    ensures Record(UidKey(line), line) in Records(Rewrite(line + "\n" + file, ps))
  {
    hide Records, Rewrite, UidKey, Clean, MapOf, GoodPair;
    var r := Record(UidKey(line), line);
    FirstRecord(line, file);
    assert [line][1..] == [];
    assert RecordsOfLines([line]) == [r];
    RewriteMember(line + "\n" + file, ps, r);
  }

  lemma RecordHasUid(rs: seq<Record>, r: Record)
    requires r in rs
    ensures r.uid in RecordUids(rs)
  {
  }

  lemma {:induction false} UncoveredAgain(rs: seq<Record>, more: seq<Record>, ps: seq<PacketPair>)
    requires forall r :: r in more ==> Cached(ps, r.uid)
    ensures OrphanLines(Uncovered(rs, ps) + more, ps) == OrphanLines(rs, ps)
    decreases |rs| + |more|
  {
    hide Cached;
    var all := Uncovered(rs, ps) + more;
    if rs == [] {
      if more != [] {
        assert more[0] in more;
        assert all == more;
        UncoveredAgain(rs, more[1..], ps);
        assert Uncovered(rs, ps) + more[1..] == more[1..];
      }
    } else {
      UncoveredAgain(rs[1..], more, ps);
      if !Cached(ps, rs[0].uid) {
        assert all == [rs[0]] + (Uncovered(rs[1..], ps) + more);
      }
    }
  }

  lemma {:induction false} PublishedAreCached(ps: seq<PacketPair>, all: seq<PacketPair>)
    requires forall e :: e in ps ==> e in all
    ensures forall r :: r in Published(ps) ==> Cached(all, r.uid)
    decreases |ps|
  {
    hide Pick;
    if ps != [] {
      PublishedAreCached(ps[1..], all);
      assert ps[0] in all;
      var k :| 0 <= k < |all| && all[k] == ps[0];
      assert all[k].uid in Uids(all);
      CachedIsUid(all, ps[0].uid);
    }
  }

  /** Rewriting again from the same cache changes nothing. */
  lemma RewriteTwice(file: string, ps: seq<PacketPair>)
    requires GoodCache(ps)
    ensures Rewrite(Rewrite(file, ps), ps) == Rewrite(file, ps)
  {
    hide Records, Cached, Published, Uncovered, GoodPair, Picks, OrphanLines;
    RewriteRecords(file, ps);
    PublishedAreCached(ps, ps);
    UncoveredAgain(Records(file), Published(ps), ps);
  }

  // ---- Whole runs ----

  datatype FileWorld = FileWorld(logs: World, file: string)

  /** A call scans the logs and rewrites the file from the new cache; everything else leaves the file alone. */
  function FileStep(fw: FileWorld, e: LogEvent): FileWorld {
    var logs := Step(fw.logs, e);
    FileWorld(logs, if e.Call? then Rewrite(fw.file, logs.cache.pairs) else fw.file)
  }

  function FileSteps(fw: FileWorld, es: seq<LogEvent>): FileWorld
    decreases |es|
  {
    if es == [] then fw else FileSteps(FileStep(fw, es[0]), es[1..])
  }

  ghost predicate FileInv(fw: FileWorld) {
    CacheInv(fw.logs) && GoodCache(fw.logs.cache.pairs) && OnePerUid(Records(fw.file))
  }

  lemma FileStepKeeps(fw: FileWorld, e: LogEvent)
    requires FileInv(fw)
    ensures FileInv(FileStep(fw, e))
  {
    hide CacheInv, GoodPair, Records, Rewrite, Refresh, OnePerUid;
    StepKeepsCache(fw.logs, e);
    if e.Call? {
      RefreshKeepsGood(fw.logs.cache, fw.logs.serverLog, fw.logs.clientLog);
      RewriteKeepsOnePerUid(fw.file, FileStep(fw, e).logs.cache.pairs);
    }
  }

  lemma {:induction false} FileStepsKeep(fw: FileWorld, es: seq<LogEvent>)
    requires FileInv(fw)
    ensures FileInv(FileSteps(fw, es))
    decreases |es|
  {
    hide FileInv, FileStep;
    if es != [] {
      FileStepKeeps(fw, es[0]);
      FileStepsKeep(FileStep(fw, es[0]), es[1..]);
    }
  }

  /** From an empty file, any run of appends, calls and restarts keeps one line per uid. */
  lemma RunKeepsOnePerUid(es: seq<LogEvent>)
    ensures var fw := FileSteps(FileWorld(FRESH_WORLD, ""), es);
            FileInv(fw) && OnePerUid(Records(fw.file))
  {
    FreshCache();
    assert Pieces("") == [];
    assert FileInv(FileWorld(FRESH_WORLD, ""));
    FileStepsKeep(FileWorld(FRESH_WORLD, ""), es);
  }

  // ---- A second call with no new bytes ----

  function UidList(ps: seq<PacketPair>): (us: seq<string>)
    ensures |us| == |ps| && forall i :: 0 <= i < |us| ==> us[i] == ps[i].uid
  {
    seq(|ps|, i requires 0 <= i < |ps| => ps[i].uid)
  }

  lemma PutKeepsOrder(ps: seq<PacketPair>, uid: string, side: Side, line: string)
    requires Distinct(ps) && uid in Uids(ps)
    ensures Distinct(PutPair(ps, uid, side, line)) && UidList(PutPair(ps, uid, side, line)) == UidList(ps)
  {
    PutPairShape(ps, uid, side, line);
    CachedIsUid(ps, uid);
  }

  lemma UidsOfList(ps: seq<PacketPair>, qs: seq<PacketPair>)
    requires UidList(ps) == UidList(qs)
    ensures Uids(ps) == Uids(qs)
  {
    assert |ps| == |qs| && forall i :: 0 <= i < |ps| ==> UidList(ps)[i] == ps[i].uid && UidList(qs)[i] == qs[i].uid;
  }

  lemma {:induction false} FoldKeepsOrder(ps: seq<PacketPair>, side: Side, pieces: seq<string>)
    requires Distinct(ps) && forall uid :: HasKey(pieces, uid) ==> uid in Uids(ps)
    ensures Distinct(FoldPieces(ps, side, pieces)) && UidList(FoldPieces(ps, side, pieces)) == UidList(ps)
    decreases |pieces|
  {
    hide PutPair, Key, LineText, Uids, HasKey, UidList;
    if pieces != [] {
      var p, rest := pieces[0], pieces[1..];
      assert pieces == [p] + rest;
      forall uid
        ensures HasKey(pieces, uid) <==> Key(p) == Some(uid) || HasKey(rest, uid)
      {
        HasKeyCons(p, rest, uid);
      }
      var next := PutPiece(ps, side, p);
      match Key(p) {
        case Some(uid) =>
          PutKeepsOrder(ps, uid, side, LineText(p));
        case None =>
      }
      UidsOfList(ps, next);
      FoldKeepsOrder(next, side, rest);
    }
  }

  lemma SamePairs(ps: seq<PacketPair>, qs: seq<PacketPair>)
    requires Distinct(ps) && Distinct(qs) && UidList(ps) == UidList(qs) && MapOf(ps) == MapOf(qs)
    ensures ps == qs
  {
    assert |ps| == |UidList(ps)| == |qs|;
    forall i | 0 <= i < |ps|
      ensures ps[i] == qs[i]
    {
      assert UidList(ps)[i] == ps[i].uid && UidList(qs)[i] == qs[i].uid;
      MapOfAt(ps, i);
      MapOfAt(qs, i);
    }
  }

  lemma {:induction false} MapFoldKeys(m: Lines, side: Side, pieces: seq<string>, uid: string)
    requires uid in m || HasKey(pieces, uid)
    ensures uid in MapFold(m, side, pieces)
    decreases |pieces|
  {
    hide Key, LineText, HasKey;
    if pieces == [] {
      assert !HasKey(pieces, uid) by { NoKeys(uid); }
    } else {
      var p, rest := pieces[0], pieces[1..];
      assert pieces == [p] + rest;
      HasKeyCons(p, rest, uid);
      MapFoldKeys(MapPiece(m, side, p), side, rest, uid);
    }
  }

  lemma NoKeys(uid: string)
    ensures !HasKey([], uid)
  {
  }

  /** The keys of a tail that starts at a line start are keys of the whole text. */
  lemma TailKeys(s: string, off: nat, uid: string)
    requires LineStart(s, off)
    ensures HasKey(Pieces(s[off..]), uid) ==> HasKey(Pieces(s), uid)
  {
    hide HasKey, Pieces;
    assert s == s[..off] + s[off..];
    PiecesSplit(s[..off], s[off..]);
    HasKeyAfter(Pieces(s[..off]), Pieces(s[off..]), uid);
  }

  lemma HasKeyAfter(a: seq<string>, b: seq<string>, uid: string)
    ensures HasKey(b, uid) ==> HasKey(a + b, uid)
  {
    hide Key;
    if HasKey(b, uid) {
      var i :| 0 <= i < |b| && Key(b[i]) == Some(uid);
      assert Key((a + b)[|a| + i]) == Some(uid);
    }
  }

  lemma RescanKeepsPairs(w: World)
    requires CacheInv(w) && w.serverSeen == |w.serverLog| && w.clientSeen == |w.clientLog|
    ensures Refresh(w.cache, w.serverLog, w.clientLog).pairs == w.cache.pairs
  {
    var s, c, ps := w.serverLog, w.clientLog, w.cache.pairs;
    var so, co := w.cache.serverOffset, w.cache.clientOffset;
    RefreshRescans(w);
    assert s[..|s|] == s && c[..|c|] == c;
    MapOfKeys(ps);
    hide Key, LineText, Uids, HasKey, MapOf, MapFold, FoldPieces, Pieces, Distinct, UidList, ResumeOffset;
    var mid := FoldPieces(ps, ServerSide, Pieces(s[so..]));
    forall uid | HasKey(Pieces(s[so..]), uid)
      ensures uid in Uids(ps)
    {
      TailKeys(s, so, uid);
      MapFoldKeys(map[], ServerSide, Pieces(s), uid);
      MapFoldKeys(MapFold(map[], ServerSide, Pieces(s)), ClientSide, Pieces(c), uid);
    }
    FoldKeepsOrder(ps, ServerSide, Pieces(s[so..]));
    UidsOfList(ps, mid);
    forall uid | HasKey(Pieces(c[co..]), uid)
      ensures uid in Uids(mid)
    {
      TailKeys(c, co, uid);
      MapFoldKeys(MapFold(map[], ServerSide, Pieces(s)), ClientSide, Pieces(c), uid);
    }
    FoldKeepsOrder(mid, ClientSide, Pieces(c[co..]));
    SamePairs(Refresh(w.cache, s, c).pairs, ps);
  }

  /** Stepping back again from where a scan stopped stays there. */
  lemma {:induction false} StepBackAgain(content: string, start: nat, pos: nat)
    requires start <= pos < |content| && content[pos] != '\n'
    ensures StepBack(content, start, pos) <= pos
    ensures StepBack(content, StepBack(content, start, pos), pos) == StepBack(content, start, pos)
    decreases pos
  {
    if pos > start && content[pos - 1] != '\n' {
      StepBackAgain(content, start, pos - 1);
    }
  }

  lemma ResumeAgain(content: string, start: nat)
    requires start <= |content|
    ensures ResumeOffset(content, ResumeOffset(content, start)) == ResumeOffset(content, start)
  {
    if |content| > start && content[|content| - 1] != '\n' {
      StepBackAgain(content, start, |content| - 1);
    }
  }

  /** Scanning again right after a scan changes neither the pairs nor the saved offsets. */
  lemma RescanKeepsCache(w: World)
    requires CacheInv(w)
    ensures Step(Step(w, Call), Call) == Step(w, Call)
  {
    hide FoldPieces, Pieces, MapOf, FullScan, Distinct, ResumeOffset;
    var once := Step(w, Call);
    RefreshRescans(w);
    RescanKeepsPairs(once);
    ResumeAgain(w.serverLog, w.cache.serverOffset);
    ResumeAgain(w.clientLog, w.cache.clientOffset);
  }

  /** Calling twice in a row, in any reachable situation, leaves file and cache as the first call left them. */
  lemma SecondCallChangesNothing(es: seq<LogEvent>)
    ensures var once := FileStep(FileSteps(FileWorld(FRESH_WORLD, ""), es), Call); FileStep(once, Call) == once
  {
    RunKeepsOnePerUid(es);
    var fw := FileSteps(FileWorld(FRESH_WORLD, ""), es);
    hide FileSteps, CacheInv, GoodCache, Rewrite, Step;
    FileStepKeeps(fw, Call);
    RescanKeepsCache(fw.logs);
    RewriteTwice(fw.file, Step(fw.logs, Call).cache.pairs);
  }

  // ---- What the file holds after a call ----

  lemma {:induction false} FileStepsLogs(fw: FileWorld, es: seq<LogEvent>)
    ensures FileSteps(fw, es).logs == Steps(fw.logs, es)
    decreases |es|
  {
    hide Step, Rewrite;
    if es != [] {
      FileStepsLogs(FileStep(fw, es[0]), es[1..]);
    }
  }

  lemma {:induction false} FileStepsSnoc(fw: FileWorld, es: seq<LogEvent>, e: LogEvent)
    ensures FileSteps(fw, es + [e]) == FileStep(FileSteps(fw, es), e)
    decreases |es|
  {
    hide FileStep;
    if es == [] {
      assert es + [e] == [e] && [e][1..] == [];
    } else {
      assert (es + [e])[1..] == es[1..] + [e];
      FileStepsSnoc(FileStep(fw, es[0]), es[1..], e);
    }
  }

  const FRESH := FileWorld(FRESH_WORLD, "")

  /**
   * After any history, a call leaves for every uid of the logs exactly its sender's line, if that opens with a brace,
   * and for every other uid exactly the records the file had before.
   */
  lemma FileAfterCall(es: seq<LogEvent>, r: Record)
    ensures var before, after := FileSteps(FRESH, es), FileSteps(FRESH, es + [Call]);
      var m := FullScan(after.logs.serverLog, after.logs.clientLog);
      r in Records(after.file) <==>
        if r.uid in m then r.line != "" && r.line[0] == '{' && r.line == SenderLine(m[r.uid])
        else r in Records(before.file)
  {
    hide FileSteps, FullScan, MapOf, Records, Rewrite, SenderLine, GoodCache, Distinct, CacheInv;
    var before := FileSteps(FRESH, es);
    RunKeepsOnePerUid(es);
    FileStepsSnoc(FRESH, es, Call);
    FileStepsLogs(FRESH, es + [Call]);
    IncrementalEqualsFullScan(es);
    FileStepKeeps(before, Call);
    RewriteMember(before.file, FileStep(before, Call).logs.cache.pairs, r);
  }

  /**
   * The file's uids after a call are those it had and those of the logs exactly when every sender's line in the logs
   * opens with a brace.
   */
  lemma UidsAfterCallIff(es: seq<LogEvent>)
    ensures var before, after := FileSteps(FRESH, es), FileSteps(FRESH, es + [Call]);
      var m := FullScan(after.logs.serverLog, after.logs.clientLog);
      (RecordUids(Records(after.file)) == RecordUids(Records(before.file)) + m.Keys) <==>
        forall u :: u in m ==> SenderLine(m[u]) != "" && SenderLine(m[u])[0] == '{'
  {
    var before, after := FileSteps(FRESH, es), FileSteps(FRESH, es + [Call]);
    var m := FullScan(after.logs.serverLog, after.logs.clientLog);
    hide FileSteps, FullScan, Records, SenderLine, RecordUids;
    forall u
      ensures u in RecordUids(Records(after.file)) <==>
        if u in m then Braced(SenderLine(m[u])) else u in RecordUids(Records(before.file))
    {
      UidAfterCall(es, u);
    }
  }

  lemma UidAfterCall(es: seq<LogEvent>, u: string)
    ensures var before, after := FileSteps(FRESH, es), FileSteps(FRESH, es + [Call]);
      var m := FullScan(after.logs.serverLog, after.logs.clientLog);
      u in RecordUids(Records(after.file)) <==>
        if u in m then Braced(SenderLine(m[u])) else u in RecordUids(Records(before.file))
  {
    var before, after := FileSteps(FRESH, es), FileSteps(FRESH, es + [Call]);
    var m := FullScan(after.logs.serverLog, after.logs.clientLog);
    hide FileSteps, FullScan, Records, SenderLine, RecordUids;
    if u in RecordUids(Records(after.file)) {
      var r := RecordOfUid(Records(after.file), u);
      FileAfterCall(es, r);
      if u !in m {
        RecordHasUid(Records(before.file), r);
      }
    }
    if u in m {
      FileAfterCall(es, Record(u, SenderLine(m[u])));
      if Braced(SenderLine(m[u])) {
        RecordHasUid(Records(after.file), Record(u, SenderLine(m[u])));
      }
    } else if u in RecordUids(Records(before.file)) {
      var r := RecordOfUid(Records(before.file), u);
      FileAfterCall(es, r);
      RecordHasUid(Records(after.file), r);
    }
  }

  lemma RecordOfUid(rs: seq<Record>, u: string) returns (r: Record)
    requires u in RecordUids(rs)
    ensures r in rs && r.uid == u
  {
    var i :| 0 <= i < |rs| && rs[i].uid == u;
    r := rs[i];
  }

  // ---- A line that is lost ----

  /** A packet line that does not open with a brace. */
  function LostLine(): string {
    TYPE_KEY + "DATA\"," + UID_KEY + "u\""
  }

  lemma LostLineUidAt()
    ensures Find(LostLine(), UID_KEY) == Some(21)
  {
    var s := LostLine();
    assert |s| == 37 && |UID_KEY| == 14;
    assert s[21..35] == UID_KEY;
    forall j: nat | j < 21
      ensures !Occurs(s, UID_KEY, j)
    {
      if s[j] != '\"' {
        Differs(s, UID_KEY, j, 0);
      } else if j == 0 {
        Differs(s, UID_KEY, j, 8);
      } else {
        Differs(s, UID_KEY, j, 1);
      }
    }
    FindAt(s, UID_KEY, 21);
  }

  lemma LostLineShape()
    ensures var s := LostLine();
      && |s| == 37 && s[..15] == TYPE_KEY && s[15] == 'D' && s[35..] == "u\""
      && '\n' !in s && '\0' !in s && s[0] == '\"' && s[36] == '\"'
  {
    assert |LostLine()| == 37;
  }

  lemma LostLineIsPacketLine()
    ensures IsPacketLine(LostLine())
  {
    hide LostLine;
    LostLineShape();
    assert |TYPE_KEY| == 15;
    assert Occurs(LostLine(), TYPE_KEY, 0);
    FindAt(LostLine(), TYPE_KEY, 0);
  }

  lemma LostLineUid()
    ensures UidKey(LostLine()) == "u"
  {
    hide LostLine, Find;
    LostLineShape();
    LostLineUidAt();
    QuoteEnds(LostLine());
    assert |UID_KEY| == 14;
  }

  lemma LostLineKey()
    ensures Key(LostLine() + "\n") == Some("u") && LineText(LostLine() + "\n") == LostLine()
    ensures Clean(LostLine()) && !Braced(LostLine())
  {
    hide LostLine, IsPacketLine, UidKey;
    LostLineShape();
    assert Trim(LostLine()) == LostLine();
    LineTextOfLine(LostLine());
    LostLineIsPacketLine();
    LostLineUid();
  }

  lemma QuoteEnds(s: string)
    requires |s| == 37 && s[35..] == "u\""
    ensures Quoted(s, 35) == Some("u")
  {
    assert !Occurs("u\"", "\"", 0) by {
      Differs("u\"", "\"", 0, 0);
    }
    assert Occurs("u\"", "\"", 1);
    FindAt("u\"", "\"", 1);
    assert s[35..36] == "u";
  }

  /** One log with that line alone, and one call. */
  function LostHistory(): seq<LogEvent> {
    [AppendServer(LostLine() + "\n"), Call]
  }

  lemma LostPieces()
    ensures Pieces(LostLine() + "\n") == [LostLine() + "\n"] && Pieces("") == []
  {
    hide LostLine;
    var text := LostLine() + "\n";
    LostLineShape();
    TakeLengthOfLine(LostLine(), "", LINE_BUFFER - 1);
    assert LostLine() + "\n" + "" == text;
    assert text[..38] == text && text[38..] == "";
    assert Pieces(text) == [text] + Pieces("");
  }

  lemma LostScan()
    ensures FullScan(LostLine() + "\n", "") == map["u" := (LostLine(), "")]
  {
    hide LostLine, Key;
    var text := LostLine() + "\n";
    LostLineKey();
    LostPieces();
    FoldOne(map[], ServerSide, text);
    FoldOne(MapPiece(map[], ServerSide, text), ClientSide, text);
    assert MapPut(map[], "u", ServerSide, LostLine()) == map["u" := (LostLine(), "")];
  }

  lemma FoldOne(m: Lines, side: Side, piece: string)
    ensures MapFold(m, side, [piece]) == MapPiece(m, side, piece) && MapFold(m, side, []) == m
  {
    hide MapPiece;
    assert [piece][1..] == [];
  }

  /** The call caches the line as the server's, and writes it to the file. */
  lemma LostPublished()
    ensures var c := Refresh(EMPTY_CACHE, LostLine() + "\n", "");
      c.pairs == [PacketPair("u", LostLine(), "")] && Rewrite("", c.pairs) == LostLine() + "\n"
  {
    hide LostLine, Key, Braced, Clean, Direction, ResumeOffset;
    var text := LostLine() + "\n";
    LostPieces();
    LostLineKey();
    var e := PacketPair("u", LostLine(), "");
    assert text[0..] == text && ""[0..] == "";
    assert PutPiece([], ServerSide, text) == [e];
    var piece: seq<string> := [text];
    assert piece[1..] == [];
    assert FoldPieces([], ServerSide, [text]) == [e];
    OnlyLine(LostLine());
    PickSender(e);
    LostLineShape();
    var pairs, lines := [e], [LostLine()];
    assert pairs[1..] == [] && lines[1..] == [];
    assert Picks([e]) == [LostLine()];
    assert Records("") == [];
    assert [] + Picks([e]) == [LostLine()];
  }

  /** A line the scan caches under a uid, and writes to the file, need not be read back from it. */
  lemma UnbracedLineIsLost()
    ensures var fw := FileSteps(FRESH, LostHistory());
      && fw.logs.serverLog == LostLine() + "\n" && fw.file == LostLine() + "\n"
      && "u" in Uids(fw.logs.cache.pairs) && "u" !in RecordUids(Records(fw.file))
  {
    hide LostLine, FullScan, Records, Rewrite, Refresh, SenderLine, Braced, MapOf, Distinct, Direction;
    var es := [AppendServer(LostLine() + "\n")];
    var fw := FileSteps(FRESH, es + [Call]);
    assert es + [Call] == LostHistory();
    assert es[1..] == [];
    FileStepsSnoc(FRESH, es, Call);
    assert "" + (LostLine() + "\n") == LostLine() + "\n";
    assert fw.logs.serverLog == LostLine() + "\n" && fw.logs.clientLog == "";
    LostPublished();
    LostScan();
    LostLineKey();
    OnlyLine(LostLine());
    var m := FullScan(fw.logs.serverLog, fw.logs.clientLog);
    assert m == map["u" := (LostLine(), "")];
    assert m["u"] == (LostLine(), "");
    assert !Braced(SenderLine(m["u"]));
    UidAfterCall(es, "u");
    assert "u" !in RecordUids(Records(fw.file));
    FileStepsLogs(FRESH, es + [Call]);
    IncrementalEqualsFullScan(es);
    MapOfKeys(fw.logs.cache.pairs);
  }

  lemma OnlyLine(line: string)
    ensures SenderLine((line, "")) == line
  {
    hide Direction;
  }

  // ---- The implementation ----

  lemma {:induction false} RenderAppend(a: seq<string>, b: seq<string>)
    ensures Render(a + b) == Render(a) + Render(b)
    decreases |a|
  {
    if a == [] {
      assert a + b == b;
    } else {
      assert (a + b)[1..] == a[1..] + b;
      RenderAppend(a[1..], b);
    }
  }

  lemma RenderSnoc(a: seq<string>, line: string)
    ensures Render(a + [line]) == Render(a) + line + "\n"
  {
    RenderAppend(a, [line]);
    assert [line][1..] == [];
  }

  /** The search through the cache for a uid. */
  method IsCovered(c: Cache, uid: string) returns (covered: bool)
    requires c.Valid()
    ensures covered <==> Cached(c.Pairs(), uid)
  {
    hide Cached;
    covered := false;
    var i := 0;
    while i < c.n && !covered
      invariant i <= c.n
      invariant covered <==> exists j :: 0 <= j < i && c.entries[j].uid == uid
    {
      covered := c.entries[i].uid == uid;
      i := i + 1;
    }
    CachedIsUid(c.Pairs(), uid);
    assert covered <==> uid in Uids(c.Pairs());
  }

  /** What one line of the old file leaves: itself, when it is a record whose uid the cache does not cover. */
  function KeptLine(line: string, ps: seq<PacketPair>): seq<string> {
    match RecordOf(line)
    case Some(r) => if Cached(ps, r.uid) then [] else [r.line]
    case None => []
  }

  lemma OrphanStep(file: string, pos: nat, ps: seq<PacketPair>)
    requires pos < |file|
    ensures var len := TakeLength(file[pos..], LINE_BUFFER - 1);
      OrphanLines(Records(file[pos..]), ps) ==
        KeptLine(LineText(file[pos..][..len]), ps) + OrphanLines(Records(file[pos + len..]), ps)
  {
    hide LineText, TakeLength, RecordOf, Cached, LineTexts;
    var rest := file[pos..];
    var len := TakeLength(rest, LINE_BUFFER - 1);
    var line := LineText(rest[..len]);
    assert rest[len..] == file[pos + len..];
    RecordsCons(rest[..len], Pieces(rest[len..]));
    OrphansOfLine(line, Records(rest[len..]), ps);
  }

  lemma OrphansOfLine(line: string, rs: seq<Record>, ps: seq<PacketPair>)
    ensures OrphanLines(RecordsOfLines([line]) + rs, ps) == KeptLine(line, ps) + OrphanLines(rs, ps)
  {
    hide RecordOf, Cached;
    assert [line][1..] == [];
    match RecordOf(line)
    case None => assert [] + rs == rs;
    case Some(r) => assert ([r] + rs)[1..] == rs;
  }

  /** Read the old file and keep the lines that the cache does not cover. */
  method LoadOrphans(c: Cache, file: string) returns (lines: seq<string>)
    requires c.Valid()
    ensures lines == OrphanLines(Records(file), c.Pairs())
  {
    hide LineText, TakeLength, UidKey, Cached, OrphanLines, Records;
    lines := [];
    var pos := 0;
    ghost var ps := c.Pairs();
    assert file[0..] == file;
    while pos < |file|
      invariant pos <= |file|
      invariant lines + OrphanLines(Records(file[pos..]), ps) == OrphanLines(Records(file), ps)
    {
      OrphanStep(file, pos, ps);
      var len := TakeLength(file[pos..], LINE_BUFFER - 1);
      var line := Cache.TrimLine(file[pos..][..len]);
      pos := pos + len;
      ConcatAssoc(lines, KeptLine(line, ps), OrphanLines(Records(file[pos..]), ps));
      assert lines + [] == lines;
      if line == "" || line[0] != '{' {
        continue;
      }
      var uid := UidKey(line);
      if uid == "" {
        continue;
      }
      var covered := IsCovered(c, uid);
      if !covered {
        lines := lines + [line];
      }
    }
    NoOrphans(file, ps);
  }

  lemma NoOrphans(file: string, ps: seq<PacketPair>)
    ensures OrphanLines(Records(file[|file|..]), ps) == []
  {
    assert file[|file|..] == "" && Pieces("") == [];
  }

  /** The sender-side choice for one pair. */
  method PickLine(e: PacketPair) returns (picked: string)
    ensures picked == Pick(e)
  {
    picked := "";
    var haveServer, haveClient := e.serverLine != "", e.clientLine != "";
    if haveServer && haveClient {
      var dir := Direction(e.serverLine);
      if dir == "Server -> Client" {
        picked := e.serverLine;
      } else if dir == "Client -> Server" {
        picked := e.clientLine;
      } else {
        picked := e.serverLine;
      }
    } else if haveServer {
      picked := e.serverLine;
    } else if haveClient {
      picked := e.clientLine;
    }
  }

  lemma {:induction false} PicksSnoc(ps: seq<PacketPair>, e: PacketPair)
    ensures Picks(ps + [e]) == Picks(ps) + (if Pick(e) != "" then [Pick(e)] else [])
    decreases |ps|
  {
    hide Pick;
    if ps == [] {
      assert ps + [e] == [e] && [e][1..] == [];
    } else {
      assert (ps + [e])[1..] == ps[1..] + [e];
      PicksSnoc(ps[1..], e);
    }
  }

  /** Write the kept lines of the old file. */
  method WriteOrphans(orphans: seq<string>) returns (text: string)
    ensures text == Render(orphans)
  {
    text := "";
    for i := 0 to |orphans|
      invariant text == Render(orphans[..i])
    {
      assert orphans[..i + 1] == orphans[..i] + [orphans[i]];
      RenderSnoc(orphans[..i], orphans[i]);
      text := text + orphans[i] + "\n";
    }
    assert orphans[..|orphans|] == orphans;
  }

  /** Write the picked line of every cached pair behind what is already written. */
  method WritePicks(c: Cache, ghost written: seq<string>, text: string) returns (newText: string, count: nat)
    requires c.Valid() && text == Render(written)
    ensures newText == Render(written + Picks(c.Pairs())) && count == |Picks(c.Pairs())|
  {
    hide Render, Pick;
    newText, count := text, 0;
    ghost var ps := c.Pairs();
    assert Picks(ps[..0]) == [] && written + [] == written;
    for i := 0 to c.n
      invariant count == |Picks(ps[..i])| && newText == Render(written + Picks(ps[..i]))
    {
      var picked := PickLine(c.entries[i]);
      ghost var before := Picks(ps[..i]);
      assert ps[..i + 1] == ps[..i] + [ps[i]];
      PicksSnoc(ps[..i], ps[i]);
      if picked != "" {
        assert written + (before + [picked]) == (written + before) + [picked];
        RenderSnoc(written + before, picked);
        newText := newText + picked + "\n";
        count := count + 1;
      } else {
        assert before + [] == before;
      }
    }
    assert ps[..c.n] == ps;
  }

  /** api_packets: fold the new log bytes into the cache, then write the orphans and the picked lines. */
  method ApiPackets(c: Cache, serverLog: string, clientLog: string, file: string) returns (newFile: string, count: nat)
    requires c.Valid()
    modifies c, c.entries
    ensures c.Valid() && c.View() == Refresh(old(c.View()), serverLog, clientLog)
    ensures newFile == Rewrite(file, c.Pairs())
    ensures count == |OrphanLines(Records(file), c.Pairs())| + |Picks(c.Pairs())|
  {
    hide Refresh, OrphanLines, Records, Picks;
    c.ScanBothLogs(serverLog, clientLog);
    var orphans := LoadOrphans(c, file);
    newFile := WriteOrphans(orphans);
    newFile, count := WritePicks(c, orphans, newFile);
    count := count + |orphans|;
  }
}
