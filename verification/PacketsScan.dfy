/** The scan of control_server.c over its growable array of pairs. */
module PacketsScan {
  import opened Bytes
  import opened LogLines
  import opened PacketsCache
  import opened Results

  const EMPTY_PAIR := PacketPair("", "", "")

  lemma IndexOfSkips(ps: seq<PacketPair>, uid: string, i: nat)
    requires i <= |ps| && forall j :: 0 <= j < i ==> ps[j].uid != uid
    ensures i < |ps| && ps[i].uid == uid ==> IndexOf(ps, uid) == i
    ensures i == |ps| ==> IndexOf(ps, uid) == i
  {
  }

  class Cache {
    var entries: array<PacketPair>
    var n: nat
    var serverOffset: nat
    var clientOffset: nat

    ghost predicate Valid()
      reads this
    {
      n <= entries.Length
    }

    ghost function Pairs(): seq<PacketPair>
      reads this, entries
      requires Valid()
    {
      entries[..n]
    }

    ghost function View(): CacheState
      reads this, entries
      requires Valid()
    {
      CacheState(Pairs(), serverOffset, clientOffset)
    }

    constructor ()
      ensures Valid() && fresh(entries) && View() == EMPTY_CACHE
    {
      entries := new PacketPair[0];
      n, serverOffset, clientOffset := 0, 0, 0;
    }

    method CachePut(uid: string, side: Side, line: string)
      requires Valid()
      modifies this`entries, this`n, entries
      ensures Valid() && (entries == old(entries) || fresh(entries))
      ensures Pairs() == PutPair(old(Pairs()), uid, side, line)
    {
      var i := 0;
      while i < n
        invariant i <= n
        invariant forall j :: 0 <= j < i ==> entries[j].uid != uid
      {
        if entries[i].uid == uid {
          IndexOfSkips(Pairs(), uid, i);
          entries[i] := entries[i].With(side, line);
          return;
        }
        i := i + 1;
      }
      IndexOfSkips(Pairs(), uid, n);
      hide IndexOf;
      if n >= entries.Length {
        Grow();
      }
      ghost var was := entries[..n];
      entries[n] := PacketPair(uid, "", "").With(side, line);
      n := n + 1;
      assert entries[..n] == was + [PacketPair(uid, "", "").With(side, line)];
    }

    /** Double the array, keeping what it holds. */
    method Grow()
      requires Valid()
      modifies this`entries
      ensures Valid() && fresh(entries) && entries.Length > n
      ensures Pairs() == old(Pairs())
    {
      var newCap := if entries.Length > 0 then entries.Length * 2 else 32;
      var next := new PacketPair[newCap](_ => EMPTY_PAIR);
      CopyInto(next, 0, entries[..]);
      assert next[..n] == entries[..n];
      entries := next;
    }

    /** The trailing-newline loop after each fgets. */
    static method TrimLine(piece: string) returns (line: string)
      ensures line == LineText(piece)
    {
      line := CText(piece);
      while |line| > 0 && (line[|line| - 1] == '\n' || line[|line| - 1] == '\r')
        invariant Trim(line) == LineText(piece)
        decreases |line|
      {
        line := line[..|line| - 1];
      }
    }

    /** What the loop does with one piece that fgets returns. */
    method PutLine(piece: string, side: Side)
      requires Valid()
      modifies this`entries, this`n, entries
      ensures Valid() && (entries == old(entries) || fresh(entries))
      ensures Pairs() == PutPiece(old(Pairs()), side, piece)
    {
      hide PutPair, LineText, IsPacketLine, UidKey;
      var line := TrimLine(piece);
      if IsPacketLine(line) {
        var uid := UidKey(line);
        if uid != "" {
          CachePut(uid, side, line);
        }
      }
    }

    /** Read one log from the saved offset to its end and return the offset to resume at. */
    method ScanLogFile(content: string, side: Side, start: nat) returns (newOffset: nat)
      requires Valid()
      modifies this`entries, this`n, entries
      ensures Valid() && (entries == old(entries) || fresh(entries))
      ensures (Pairs(), newOffset) == ScanLog(old(Pairs()), content, side, start)
    {
      hide PutPiece, FoldPieces, Pieces, TakeLength, ResumeOffset;
      var from := start;
      if start > 0 && |content| < start {
        from := 0;
      }
      var pos := from;
      while pos < |content|
        invariant from <= pos <= |content|
        invariant Valid() && (entries == old(entries) || fresh(entries))
        invariant FoldPieces(Pairs(), side, Pieces(content[pos..])) ==
          FoldPieces(old(Pairs()), side, Pieces(content[from..]))
      {
        FoldOnePiece(Pairs(), side, content, pos);
        var rest := content[pos..];
        var len := TakeLength(rest, LINE_BUFFER - 1);
        PutLine(rest[..len], side);
        pos := pos + len;
      }
      FoldNoPiece(Pairs(), side, content);
      newOffset := Rollback(content, from);
    }

    static lemma FoldOnePiece(ps: seq<PacketPair>, side: Side, content: string, pos: nat)
      requires pos < |content|
      ensures var rest := content[pos..];
        var len := TakeLength(rest, LINE_BUFFER - 1);
        FoldPieces(ps, side, Pieces(rest)) ==
          FoldPieces(PutPiece(ps, side, rest[..len]), side, Pieces(content[pos + len..]))
    {
      hide PutPiece, TakeLength;
      var rest := content[pos..];
      var len := TakeLength(rest, LINE_BUFFER - 1);
      assert rest[len..] == content[pos + len..];
      assert Pieces(rest)[1..] == Pieces(rest[len..]);
    }

    static lemma FoldNoPiece(ps: seq<PacketPair>, side: Side, content: string)
      ensures FoldPieces(ps, side, Pieces(content[|content|..])) == ps
    {
      assert content[|content|..] == "";
    }

    method ScanBothLogs(serverLog: string, clientLog: string)
      requires Valid()
      modifies this, entries
      ensures Valid() && (entries == old(entries) || fresh(entries))
      ensures View() == Refresh(old(View()), serverLog, clientLog)
    {
      hide ScanLog;
      serverOffset := ScanLogFile(serverLog, ServerSide, serverOffset);
      clientOffset := ScanLogFile(clientLog, ClientSide, clientOffset);
    }
  }

  /** The backward scan for the start of an unterminated last line. */
  method Rollback(content: string, start: nat) returns (newOffset: nat)
    requires start <= |content|
    ensures newOffset == ResumeOffset(content, start)
  {
    newOffset := |content|;
    if newOffset > start {
      var c := content[newOffset - 1];
      if c != '\n' {
        var pos := newOffset - 1;
        while pos > start
          invariant start <= pos < |content|
          invariant StepBack(content, start, pos) == StepBack(content, start, |content| - 1)
        {
          if content[pos] == '\n' {
            return pos + 1;
          }
          pos := pos - 1;
        }
        newOffset := pos;
      }
    }
  }
}
