/** The line reading of control_server.c: what fgets, strlen, strstr and the JSON field pickers see of a log. */
module LogLines {
  import opened Results

  const LINE_BUFFER: nat := 8192
  const UID_BUFFER: nat := 64
  const DIRECTION_BUFFER: nat := 32
  const TYPE_KEY := "\"packet_type\":\""
  const UID_KEY := "\"packet_uid\":\""
  const DIRECTION_KEY := "\"direction\":\""

  /** How many characters one fgets takes: up to and including a newline, but no more than room. */
  function TakeLength(s: string, room: nat): (n: nat)
    ensures n <= |s| && n <= room
    ensures s != "" && room > 0 ==> n > 0
    ensures n < |s| && n < room ==> n > 0 && s[n - 1] == '\n'
  {
    if s == "" || room == 0 then 0
    else if s[0] == '\n' then 1
    else 1 + TakeLength(s[1..], room - 1)
  }

  /** The successive fgets results of a text. */
  function Pieces(s: string): (ps: seq<string>) {
    if s == "" then []
    else
      var n := TakeLength(s, LINE_BUFFER - 1);
      [s[..n]] + Pieces(s[n..])
  }

  /** The part that strlen sees. */
  function CText(s: string): (t: string)
    ensures |t| <= |s| && t == s[..|t|]
  {
    if s == "" || s[0] == '\0' then "" else [s[0]] + CText(s[1..])
  }

  function Trim(s: string): (t: string)
    ensures |t| <= |s| && t == s[..|t|]
  {
    if s != "" && (s[|s| - 1] == '\n' || s[|s| - 1] == '\r') then Trim(s[..|s| - 1]) else s
  }

  function LineText(piece: string): string {
    Trim(CText(piece))
  }

  /** strstr: the first occurrence. */
  function Find(s: string, pat: string): (k: Option<nat>)
    ensures k.Some? ==> k.value + |pat| <= |s| && s[k.value..k.value + |pat|] == pat
  {
    if |s| < |pat| then None
    else if s[..|pat|] == pat then Some(0)
    else if s == "" then None
    else
      match Find(s[1..], pat)
      case Some(k) => Some(k + 1)
      case None => None
  }

  /** The characters from a position up to the next double quote. */
  function Quoted(s: string, from: nat): Option<string>
    requires from <= |s|
  {
    match Find(s[from..], "\"")
    case Some(k) => Some(s[from..from + k])
    case None => None
  }

  predicate IsPacketLine(line: string) {
    match Find(line, TYPE_KEY)
    case Some(k) => k + |TYPE_KEY| < |line| && line[k + |TYPE_KEY|] != '\"'
    case None => false
  }

  /** A string field of a line, empty when absent, unterminated or too long for the caller's buffer. */
  function Field(line: string, key: string, size: nat): string {
    match Find(line, key)
    case Some(k) =>
      (match Quoted(line, k + |key|)
       case Some(text) => if |text| < size then text else ""
       case None => "")
    case None => ""
  }

  function UidKey(line: string): string {
    Field(line, UID_KEY, UID_BUFFER)
  }

  function Direction(line: string): string {
    Field(line, DIRECTION_KEY, DIRECTION_BUFFER)
  }

  /** The uid under which a piece of a log is cached, if any. */
  function Key(piece: string): Option<string> {
    var line := LineText(piece);
    if IsPacketLine(line) && UidKey(line) != "" then Some(UidKey(line)) else None
  }

  // ---- What the field pickers read ----

  predicate Occurs(s: string, pat: string, j: nat) {
    j + |pat| <= |s| && s[j..j + |pat|] == pat
  }

  lemma OccursLater(s: string, pat: string, j: nat)
    requires s != ""
    ensures Occurs(s[1..], pat, j) <==> Occurs(s, pat, j + 1)
  {
    if j + 1 + |pat| <= |s| {
      assert s[1..][j..j + |pat|] == s[j + 1..j + 1 + |pat|];
    }
  }

  /** strstr finds a pattern at the first place where it occurs. */
  lemma {:induction false} FindAt(s: string, pat: string, k: nat)
    requires Occurs(s, pat, k) && forall j: nat :: j < k ==> !Occurs(s, pat, j)
    ensures Find(s, pat) == Some(k)
    decreases k
  {
    if k == 0 {
      assert s[..|pat|] == pat;
    } else {
      assert !Occurs(s, pat, 0);
      forall j: nat | j < k - 1
        ensures !Occurs(s[1..], pat, j)
      {
        OccursLater(s, pat, j);
        assert !Occurs(s, pat, j + 1);
      }
      OccursLater(s, pat, k - 1);
      FindAt(s[1..], pat, k - 1);
    }
  }

  lemma Differs(s: string, pat: string, j: nat, i: nat)
    requires i < |pat| && j + i < |s| && s[j + i] != pat[i]
    ensures !Occurs(s, pat, j)
  {
    if j + |pat| <= |s| {
      assert s[j..j + |pat|][i] == s[j + i];
    }
  }

  lemma {:induction false} QuoteAt(text: string, rest: string)
    requires '\"' !in text
    ensures Find(text + "\"" + rest, "\"") == Some(|text|)
    decreases |text|
  {
    var s := text + "\"" + rest;
    if text == "" {
      assert s[..1] == "\"";
    } else {
      assert s[..1][0] == text[0];
      assert s[1..] == text[1..] + "\"" + rest;
      QuoteAt(text[1..], rest);
    }
  }

  /** A field that opens a JSON object is read whole if it fits the caller's buffer, and not at all otherwise. */
  lemma FirstField(key: string, text: string, rest: string, size: nat)
    requires key != "" && key[0] == '\"' && '\"' !in text
    ensures Field("{" + key + text + "\"" + rest, key, size) == if |text| < size then text else ""
  {
    hide Find;
    var line := "{" + key + text + "\"" + rest;
    FieldPlaces("{", key, text, "\"" + rest);
    assert line == "{" + key + text + ("\"" + rest);
    Differs(line, key, 0, 0);
    FindAt(line, key, 1);
    assert text + ("\"" + rest) == text + "\"" + rest;
    QuoteAt(text, rest);
  }

  lemma FieldPlaces(before: string, key: string, text: string, rest: string)
    ensures var line, at := before + key + text + rest, |before| + |key|;
      && Occurs(line, key, |before|) && line[at..] == text + rest && line[at..at + |text|] == text
      && forall i :: 0 <= i < |before| ==> line[i] == before[i]
  {
  }

  lemma UidReads(uid: string, rest: string)
    requires '\"' !in uid
    ensures UidKey("{\"packet_uid\":\"" + uid + "\"" + rest) == if |uid| < 64 then uid else ""
  {
    hide Field;
    FirstField(UID_KEY, uid, rest, 64);
    assert "{" + UID_KEY == "{\"packet_uid\":\"";
  }

  lemma DirectionReads(dir: string, rest: string)
    requires '\"' !in dir
    ensures Direction("{\"direction\":\"" + dir + "\"" + rest) == if |dir| < 32 then dir else ""
  {
    hide Field;
    FirstField(DIRECTION_KEY, dir, rest, 32);
    assert "{" + DIRECTION_KEY == "{\"direction\":\"";
  }

  /** A line is a packet line when its packet type is there and not empty. */
  lemma PacketTypeReads(text: string)
    ensures IsPacketLine("{\"packet_type\":\"" + text) <==> text != "" && text[0] != '\"'
  {
    hide Find;
    var line := "{\"packet_type\":\"" + text;
    assert |TYPE_KEY| == 15 && TYPE_KEY[0] == '\"';
    Differs(line, TYPE_KEY, 0, 0);
    assert line[1..16] == TYPE_KEY;
    assert Occurs(line, TYPE_KEY, 1);
    FindAt(line, TYPE_KEY, 1);
  }

  lemma FindOccurs(s: string, pat: string)
    ensures Find(s, pat).Some? ==> Occurs(s, pat, Find(s, pat).value)
  {
    hide Find;
  }

  /** A line with none of the keys is not a packet line and has no fields. */
  lemma NoKeyNoField(line: string, key: string, size: nat)
    requires forall j: nat :: !Occurs(line, key, j)
    ensures Field(line, key, size) == ""
  {
    hide Occurs;
    FindOccurs(line, key);
  }

  /** Line ends of either kind go, and so does everything from the first NUL on. */
  lemma LineTextReads(text: string, rest: string)
    requires '\0' !in text && (text == "" || (text[|text| - 1] != '\n' && text[|text| - 1] != '\r'))
    ensures LineText(text + "\n") == LineText(text + "\r\n") == LineText(text + "\0" + rest) == text
  {
    CTextStops(text, "\0" + rest);
    CTextStops(text + "\n", "");
    CTextStops(text + "\r\n", "");
    assert text + "\n" + "" == text + "\n" && text + "\r\n" + "" == text + "\r\n";
    assert text + ("\0" + rest) == text + "\0" + rest;
    assert Trim(text) == text;
    hide CText, Trim;
    TrimOne(text, '\n');
    TrimOne(text, '\r');
    TrimOne(text + "\r", '\n');
    assert text + "\r" + "\n" == text + "\r\n";
  }

  lemma TrimOne(s: string, c: char)
    requires c == '\n' || c == '\r'
    ensures Trim(s + [c]) == Trim(s)
  {
    assert (s + [c])[..|s|] == s;
  }

  lemma {:induction false} CTextStops(s: string, rest: string)
    requires '\0' !in s && (rest == "" || rest[0] == '\0')
    ensures CText(s + rest) == s
    decreases |s|
  {
    if s == "" {
      assert s + rest == rest;
    } else {
      assert (s + rest)[1..] == s[1..] + rest;
      CTextStops(s[1..], rest);
    }
  }

  lemma {:induction false} TakeLengthOfLine(line: string, rest: string, room: nat)
    requires '\n' !in line
    ensures TakeLength(line + "\n" + rest, room) == if |line| < room then |line| + 1 else room
    decreases |line|
  {
    var s := line + "\n" + rest;
    if line != "" && room > 0 {
      assert s[0] == line[0];
      assert s[1..] == line[1..] + "\n" + rest;
      TakeLengthOfLine(line[1..], rest, room - 1);
    }
  }

  /** A piece is filed exactly when its line names a packet type, and then under its uid, if it has one that fits. */
  lemma FiledIff(piece: string, uid: string)
    ensures Key(piece) == Some(uid) <==>
      IsPacketLine(LineText(piece)) && UidKey(LineText(piece)) == uid && uid != ""
  {
    hide IsPacketLine, UidKey, LineText;
  }

  /** A line without the packet type is not filed, whatever else it holds. */
  lemma NotAPacketLine(piece: string)
    requires forall j: nat :: !Occurs(LineText(piece), "\"packet_type\":\"", j)
    ensures Key(piece) == None
  {
    hide Occurs, LineText, UidKey;
    FindOccurs(LineText(piece), TYPE_KEY);
  }

  /** fgets takes at most 8191 characters, and stops behind a newline. */
  lemma FirstPiece(line: string, rest: string)
    requires '\n' !in line
    ensures |line| < 8191 ==> Pieces(line + "\n" + rest) == [line + "\n"] + Pieces(rest)
    ensures |line| >= 8191 ==> Pieces(line + "\n" + rest) == [line[..8191]] + Pieces(line[8191..] + "\n" + rest)
  {
    hide TakeLength;
    var s := line + "\n" + rest;
    TakeLengthOfLine(line, rest, 8191);
    if |line| < 8191 {
      assert s[..|line| + 1] == line + "\n" && s[|line| + 1..] == rest;
    } else {
      assert s[..8191] == line[..8191] && s[8191..] == line[8191..] + "\n" + rest;
    }
  }

  // ---- A text that grows keeps the keys found in it ----

  lemma {:induction false} FindPrefix(s: string, t: string, pat: string)
    requires s <= t && Find(s, pat).Some?
    ensures Find(t, pat) == Find(s, pat)
    decreases |s|
  {
    if s[..|pat|] == pat {
      assert t[..|pat|] == pat;
    } else {
      assert s[1..] <= t[1..];
      FindPrefix(s[1..], t[1..], pat);
      assert t[..|pat|] == s[..|pat|];
    }
  }

  lemma {:induction false} CTextPrefix(s: string, t: string)
    requires s <= t
    ensures CText(s) <= CText(t)
    decreases |s|
  {
    if s != "" && s[0] != '\0' {
      assert s[1..] <= t[1..];
      CTextPrefix(s[1..], t[1..]);
    }
  }

  lemma {:induction false} TrimPrefix(s: string, t: string)
    requires s <= t
    ensures Trim(s) <= Trim(t)
    decreases |t|
  {
    if s != t && t != "" && (t[|t| - 1] == '\n' || t[|t| - 1] == '\r') {
      assert s <= t[..|t| - 1];
      TrimPrefix(s, t[..|t| - 1]);
    } else if s != t {
      assert Trim(t) == t;
    }
  }

  lemma QuotedPrefix(s: string, t: string, from: nat)
    requires s <= t && from <= |s| && Quoted(s, from).Some?
    ensures Quoted(t, from) == Quoted(s, from)
  {
    assert s[from..] <= t[from..];
    FindPrefix(s[from..], t[from..], "\"");
    hide Find;
    var k := Find(s[from..], "\"").value;
    assert s[from..from + k] == t[from..from + k];
  }

  lemma FieldPrefix(s: string, t: string, key: string, size: nat)
    requires s <= t && Field(s, key, size) != ""
    ensures Field(t, key, size) == Field(s, key, size)
  {
    hide Find, Quoted;
    FindPrefix(s, t, key);
    QuotedPrefix(s, t, Find(s, key).value + |key|);
  }

  /** A line still being written never changes the uid it was filed under. */
  lemma KeyPrefix(s: string, t: string)
    requires s <= t && Key(s).Some?
    ensures Key(t) == Key(s)
  {
    hide IsPacketLine, Field, CText, Trim;
    CTextPrefix(s, t);
    TrimPrefix(CText(s), CText(t));
    PacketLinePrefix(LineText(s), LineText(t));
    FieldPrefix(LineText(s), LineText(t), UID_KEY, UID_BUFFER);
  }

  lemma PacketLinePrefix(s: string, t: string)
    requires s <= t && IsPacketLine(s)
    ensures IsPacketLine(t)
  {
    hide Find;
    FindPrefix(s, t, TYPE_KEY);
  }

  // ---- Cutting a text at a line start ----

  predicate EndsLine(s: string) {
    s == "" || s[|s| - 1] == '\n'
  }

  lemma {:induction false} TakeLengthStable(a: string, b: string, room: nat)
    requires EndsLine(a) && a != ""
    ensures TakeLength(a + b, room) == TakeLength(a, room)
    decreases |a|
  {
    if room > 0 && a[0] != '\n' {
      assert (a + b)[1..] == a[1..] + b;
      TakeLengthStable(a[1..], b, room - 1);
    }
  }

  lemma {:induction false} PiecesSplit(a: string, b: string)
    requires EndsLine(a)
    ensures Pieces(a + b) == Pieces(a) + Pieces(b)
    decreases |a|
  {
    if a == "" {
      assert a + b == b;
    } else {
      var n := TakeLength(a, LINE_BUFFER - 1);
      TakeLengthStable(a, b, LINE_BUFFER - 1);
      assert (a + b)[..n] == a[..n] && (a + b)[n..] == a[n..] + b;
      PiecesSplit(a[n..], b);
    }
  }

  /** On a longer text fgets takes the same characters, unless it stopped for lack of any. */
  lemma {:induction false} TakeLengthPrefix(b: string, c: string, room: nat)
    requires b <= c
    ensures TakeLength(b, room) <= TakeLength(c, room)
    ensures TakeLength(b, room) == TakeLength(c, room) || TakeLength(b, room) == |b|
    decreases |b|
  {
    if b != "" && room > 0 && b[0] != '\n' {
      assert b[1..] <= c[1..];
      TakeLengthPrefix(b[1..], c[1..], room - 1);
    }
  }

  ghost predicate HasKey(ps: seq<string>, uid: string) {
    exists i :: 0 <= i < |ps| && Key(ps[i]) == Some(uid)
  }

  lemma HasKeyCons(p: string, ps: seq<string>, uid: string)
    ensures HasKey([p] + ps, uid) <==> Key(p) == Some(uid) || HasKey(ps, uid)
  {
    hide Key;
    var all := [p] + ps;
    if HasKey(ps, uid) {
      var i :| 0 <= i < |ps| && Key(ps[i]) == Some(uid);
      assert Key(all[i + 1]) == Some(uid);
    }
    if Key(p) == Some(uid) {
      assert Key(all[0]) == Some(uid);
    }
    if HasKey(all, uid) {
      var i :| 0 <= i < |all| && Key(all[i]) == Some(uid);
      assert i > 0 ==> Key(ps[i - 1]) == Some(uid);
    }
  }

  /** Every uid found in a text is found in every extension of it. */
  lemma {:induction false} PiecesPrefixKeys(b: string, c: string, uid: string)
    requires b <= c
    ensures HasKey(Pieces(b), uid) ==> HasKey(Pieces(c), uid)
    decreases |b|
  {
    hide Key, TakeLength;
    var room := LINE_BUFFER - 1;
    if b != "" {
      var n, m := TakeLength(b, room), TakeLength(c, room);
      TakeLengthPrefix(b, c, room);
      HasKeyCons(b[..n], Pieces(b[n..]), uid);
      HasKeyCons(c[..m], Pieces(c[m..]), uid);
      assert b[..n] <= c[..m];
      if Key(b[..n]) == Some(uid) {
        KeyPrefix(b[..n], c[..m]);
      } else if n == m {
        assert b[n..] <= c[n..];
        PiecesPrefixKeys(b[n..], c[n..], uid);
      } else {
        assert Pieces(b[n..]) == [];
      }
    }
  }
}
