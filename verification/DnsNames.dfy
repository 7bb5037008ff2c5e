/** Domain names on the wire, section 3.1 of RFC 1035, as the DNS demo encodes, answers and decodes them. */
module DnsNames {
  import opened Bytes
  import opened Results

  const HEADER: nat := 12
  const MAX_NAME: nat := 256
  const MAX_WIRE: nat := 1024
  const MAX_LABEL: nat := 63
  const DOT: byte := 0x2e

  // ---- Labels ----

  /** Labels on the wire: each after its length, then the root byte. */
  function WireName(labels: seq<seq<byte>>): (w: seq<byte>)
    requires forall l :: l in labels ==> |l| <= MAX_LABEL
    ensures |w| > 0
  {
    if labels == [] then [0] else [|labels[0]|] + labels[0] + WireName(labels[1..])
  }

  predicate IsLabel(l: seq<byte>) {
    0 < |l| <= MAX_LABEL && DOT !in l
  }

  /** Append a label to a text, after a dot unless it is the first. */
  function AddLabel(text: seq<byte>, part: seq<byte>): seq<byte> {
    (if text == [] then [] else text + [DOT]) + part
  }

  function JoinAfter(text: seq<byte>, labels: seq<seq<byte>>): (t: seq<byte>)
    ensures |t| >= |text|
    decreases |labels|
  {
    if labels == [] then text else JoinAfter(AddLabel(text, labels[0]), labels[1..])
  }

  /** The labels with dots between them. */
  function Join(labels: seq<seq<byte>>): seq<byte> {
    JoinAfter([], labels)
  }

  function DotAt(name: seq<byte>): (i: nat)
    ensures i <= |name| && DOT !in name[..i] && (i < |name| ==> name[i] == DOT)
  {
    if name == [] || name[0] == DOT then 0 else
      var i := 1 + DotAt(name[1..]);
      assert name[..i] == [name[0]] + name[1..][..i - 1];
      i
  }

  /** The labels encode_name reads off a name: None for an empty or overlong label; one trailing dot is let through. */
  function Labels(name: seq<byte>): (r: Option<seq<seq<byte>>>)
    ensures r.Some? ==> forall l :: l in r.value ==> IsLabel(l)
    decreases |name|
  {
    if name == [] then Some([])
    else
      var i := DotAt(name);
      if i == 0 || i > MAX_LABEL then None
      else
        match Labels(if i < |name| then name[i + 1..] else [])
        case None => None
        case Some(rest) => Some([name[..i]] + rest)
  }

  /** The buffer holds the wire form of the labels so far, but for the root byte. */
  ghost predicate Holds(s: seq<byte>, start: nat, pos: nat, done: seq<seq<byte>>) {
    && start + pos <= |s|
    && (forall l :: l in done ==> |l| <= MAX_LABEL)
    && s[start..start + pos] + [0] == WireName(done)
  }

  lemma HoldsNothing(s: seq<byte>, start: nat)
    requires start <= |s|
    ensures Holds(s, start, 0, [])
  {
  }

  lemma HoldsMore(s: seq<byte>, t: seq<byte>, start: nat, pos: nat, done: seq<seq<byte>>, part: seq<byte>)
    requires Holds(s, start, pos, done) && 0 < |part| <= MAX_LABEL && start + pos + 1 + |part| <= |t|
    requires t[..start + pos + 1 + |part|] == s[..start + pos] + [|part|] + part
    ensures Holds(t, start, pos + 1 + |part|, done + [part])
    ensures t[..start] == s[..start]
    ensures |WireName(done + [part])| == pos + 1 + |part| + 1
  {
    hide WireName, DropRoot;
    WireSnoc(done, part);
    DropRootOf(s[start..start + pos]);
    TailAfter(s, t, start, pos, [|part|] + part);
    ConcatAssoc(s[..start + pos], [|part|], part);
    ConcatAssoc(s[start..start + pos], [|part|] + part, [0]);
  }

  lemma DropRootOf(front: seq<byte>)
    ensures DropRoot(front + [0]) == front
  {
  }

  lemma TailAfter(s: seq<byte>, t: seq<byte>, start: nat, pos: nat, more: seq<byte>)
    requires start + pos <= |s| && start + pos + |more| <= |t|
    requires t[..start + pos + |more|] == s[..start + pos] + more
    ensures t[start..start + pos + |more|] == s[start..start + pos] + more && t[..start] == s[..start]
  {
    var end := start + pos + |more|;
    assert t[start..end] == t[..end][start..];
    assert t[..start] == t[..end][..start];
  }

  lemma HoldsAll(s: seq<byte>, t: seq<byte>, start: nat, pos: nat, done: seq<seq<byte>>)
    requires Holds(s, start, pos, done) && start + pos < |s| && t == s[start + pos := 0]
    ensures t[start..start + pos + 1] == WireName(done) && |WireName(done)| == pos + 1
    ensures t[..start] == s[..start]
  {
    assert t[start..start + pos + 1] == s[start..start + pos] + [0];
  }

  lemma HoldsLength(s: seq<byte>, start: nat, pos: nat, done: seq<seq<byte>>)
    requires Holds(s, start, pos, done)
    ensures (forall l :: l in done ==> |l| <= MAX_LABEL) && |WireName(done)| == pos + 1
  {
  }

  method PutLabel(out: array<byte>, start: nat, pos: nat, part: seq<byte>, ghost done: seq<seq<byte>>)
    requires 0 < |part| <= MAX_LABEL && start + pos + 1 + |part| <= out.Length
    requires Holds(out[..], start, pos, done)
    modifies out
    ensures Holds(out[..], start, pos + 1 + |part|, done + [part])
    ensures out[..start] == old(out[..start])
  {
    hide Holds;
    ghost var was := out[..];
    var at := start + pos;
    out[at] := |part|;
    CopyInto(out, at + 1, part);
    assert out[..at + 1] == was[..at] + [|part|];
    assert out[..][..at + 1 + |part|] == out[..at + 1] + out[at + 1..at + 1 + |part|];
    HoldsMore(was, out[..], start, pos, done, part);
    assert out[..start] == out[..][..start] && was[..start] == old(out[..start]);
  }

  /** The buffer holds the whole wire form of these labels. */
  ghost predicate Rooted(s: seq<byte>, start: nat, len: nat, labels: seq<seq<byte>>) {
    && start + len <= |s|
    && (forall l :: l in labels ==> |l| <= MAX_LABEL)
    && s[start..start + len] == WireName(labels)
  }

  method PutRoot(out: array<byte>, start: nat, pos: nat, ghost done: seq<seq<byte>>)
    requires start + pos < out.Length && Holds(out[..], start, pos, done)
    modifies out
    ensures Rooted(out[..], start, pos + 1, done)
    ensures out[..start] == old(out[..start])
  {
    ghost var was := out[..];
    out[start + pos] := 0;
    HoldsAll(was, out[..], start, pos, done);
    assert out[..start] == out[..][..start] && was[..start] == old(out[..start]);
  }

  /** The wire form of a name, if it has one. */
  function NameBytes(name: seq<byte>): Option<seq<byte>> {
    match Labels(name)
    case None => None
    case Some(labels) => Some(WireName(labels))
  }

  lemma NameBytesAre(name: seq<byte>, labels: seq<seq<byte>>)
    requires Labels(name) == Some(labels) && forall l :: l in labels ==> |l| <= MAX_LABEL
    ensures NameBytes(name) == Some(WireName(labels))
  {
  }

  lemma NoBytes(name: seq<byte>)
    ensures Labels(name).None? ==> NameBytes(name).None?
  {
  }

  lemma RootedBytes(s: seq<byte>, start: nat, len: nat, name: seq<byte>, labels: seq<seq<byte>>)
    requires Rooted(s, start, len, labels) && Labels(name) == Some(labels)
    ensures start + len <= |s| && NameBytes(name) == Some(s[start..start + len])
  {
    NameBytesAre(name, labels);
  }

  /** encode_name: succeeds exactly when the labels are good and their wire form fits, and then writes it. */
  method EncodeName(name: seq<byte>, out: array<byte>, start: nat, cap: nat) returns (r: int, outLen: nat)
    requires start + cap <= out.Length
    modifies out
    ensures r == 0 || r == -1
    ensures r == 0 <==> NameBytes(name).Some? && |NameBytes(name).value| <= cap
    ensures r == 0 ==> outLen <= cap && out[..][start..start + outLen] == NameBytes(name).value
    ensures out[..start] == old(out[..start])
  {
    hide WireName, Labels, SoFar, Holds, Rooted, NameBytes, AfterLabel, DotAt;
    var pos: nat, p: nat := 0, 0;
    ghost var done: seq<seq<byte>> := [];
    NothingEncoded(name);
    HoldsNothing(out[..], start);
    while p < |name|
      invariant p <= |name| && (pos == 0 || pos + 1 <= cap)
      invariant SoFar(name, name[p..], done) && Holds(out[..], start, pos, done)
      invariant out[..start] == old(out[..start])
      decreases |name| - p
    {
      var labelLen := DotAt(name[p..]);
      var dot := p + labelLen < |name|;
      LabelStep(name, name[p..], done);
      TailSlices(name, p);
      if labelLen == 0 || labelLen > MAX_LABEL {
        NoBytes(name);
        return -1, 0;
      }
      if pos + 1 + labelLen + 1 > cap {
        HoldsLength(out[..], start, pos, done);
        CapExceeded(name, name[p..], done);
        return -1, 0;
      }
      var part := name[p..p + labelLen];
      PutLabel(out, start, pos, part, done);
      pos := pos + 1 + labelLen;
      p := if dot then p + labelLen + 1 else p + labelLen;
      done := done + [part];
    }
    AllEncoded(name, name[p..], done);
    HoldsLength(out[..], start, pos, done);
    NameBytesAre(name, done);
    if pos + 1 > cap {
      return -1, 0;
    }
    PutRoot(out, start, pos, done);
    RootedBytes(out[..], start, pos + 1, name, done);
    return 0, pos + 1;
  }

  /** These labels have been read; what is left of the name gives the rest of them. */
  ghost predicate SoFar(name: seq<byte>, rest: seq<byte>, done: seq<seq<byte>>) {
    match Labels(rest)
    case None => Labels(name).None?
    case Some(more) => Labels(name) == Some(done + more)
  }

  lemma NothingEncoded(name: seq<byte>)
    ensures SoFar(name, name[0..], [])
  {
    assert name[0..] == name;
    if Labels(name).Some? {
      assert [] + Labels(name).value == Labels(name).value;
    }
  }

  /** What is left of a name after its first label and the dot behind it. */
  function AfterLabel(name: seq<byte>): seq<byte> {
    if DotAt(name) < |name| then name[DotAt(name) + 1..] else []
  }

  lemma LabelsUnfold(name: seq<byte>)
    requires name != []
    ensures var n := DotAt(name);
      Labels(name) ==
        if n == 0 || n > MAX_LABEL then None
        else match Labels(AfterLabel(name)) case None => None case Some(rest) => Some([name[..n]] + rest)
  {
  }

  lemma TailSlices(name: seq<byte>, p: nat)
    requires p < |name|
    ensures var n := DotAt(name[p..]);
      name[p..][..n] == name[p..p + n] && AfterLabel(name[p..]) == name[if p + n < |name| then p + n + 1 else p + n..]
  {
  }

  lemma LabelStep(name: seq<byte>, rest: seq<byte>, done: seq<seq<byte>>)
    requires rest != [] && SoFar(name, rest, done)
    ensures var n := DotAt(rest);
      if n == 0 || n > MAX_LABEL then Labels(name).None?
      else SoFar(name, AfterLabel(rest), done + [rest[..n]])
  {
    hide Labels, DotAt, AfterLabel;
    var part := rest[..DotAt(rest)];
    LabelsUnfold(rest);
    if 0 < |part| <= MAX_LABEL && Labels(AfterLabel(rest)).Some? {
      var more := Labels(AfterLabel(rest)).value;
      assert done + ([part] + more) == done + [part] + more;
    }
  }

  /** All but the last byte. */
  function DropRoot(w: seq<byte>): seq<byte>
    requires |w| > 0
  {
    w[..|w| - 1]
  }

  lemma {:induction false} WireSnoc(done: seq<seq<byte>>, part: seq<byte>)
    requires (forall l :: l in done ==> |l| <= MAX_LABEL) && |part| <= MAX_LABEL
    ensures WireName(done + [part]) == DropRoot(WireName(done)) + ([|part|] + part + [0])
    decreases |done|
  {
    hide DropRoot;
    if done == [] {
      assert done + [part] == [part] && [part][1..] == [];
      assert WireName([part]) == [|part|] + part + [0];
      JustRoot([|part|] + part + [0]);
    } else {
      var head, rest := [|done[0]|] + done[0], WireName(done[1..]);
      WireSnoc(done[1..], part);
      assert (done + [part])[1..] == done[1..] + [part];
      assert WireName(done) == head + rest;
      assert WireName(done + [part]) == head + WireName(done[1..] + [part]);
      hide WireName;
      RootDropped(head, rest, [|part|] + part + [0]);
    }
  }

  lemma JustRoot(tail: seq<byte>)
    ensures DropRoot([0]) + tail == tail
  {
    assert DropRoot([0]) == [];
  }

  lemma RootDropped(head: seq<byte>, rest: seq<byte>, tail: seq<byte>)
    requires |rest| > 0
    ensures DropRoot(head + rest) + tail == head + (DropRoot(rest) + tail)
  {
  }

  lemma {:induction false} WireGrows(done: seq<seq<byte>>, rest: seq<seq<byte>>)
    requires forall l :: l in done + rest ==> |l| <= MAX_LABEL
    ensures forall l :: l in done ==> l in done + rest
    ensures |WireName(done + rest)| >= |WireName(done)|
    decreases |done|
  {
    if done != [] {
      assert (done + rest)[1..] == done[1..] + rest;
      assert forall l :: l in done[1..] + rest ==> l in done + rest;
      WireGrows(done[1..], rest);
    }
  }

  lemma CapExceeded(name: seq<byte>, rest: seq<byte>, done: seq<seq<byte>>)
    requires rest != [] && SoFar(name, rest, done) && 0 < DotAt(rest) <= MAX_LABEL
    requires forall l :: l in done ==> |l| <= MAX_LABEL
    ensures NameBytes(name).Some? ==> |NameBytes(name).value| > |WireName(done)| + DotAt(rest)
  {
    hide DotAt, Labels, WireName;
    LabelStep(name, rest, done);
    if Labels(name).Some? {
      var part, all := rest[..DotAt(rest)], Labels(name).value;
      var more := all[|done| + 1..];
      assert all == done + [part] + more;
      WireGrows(done + [part], more);
      WireSnoc(done, part);
    }
  }

  lemma AllEncoded(name: seq<byte>, rest: seq<byte>, done: seq<seq<byte>>)
    requires rest == [] && SoFar(name, rest, done)
    ensures Labels(name) == Some(done)
  {
    assert done + [] == done;
  }

  // ---- Which names are encoded faithfully ----

  predicate EndsInDot(name: seq<byte>) {
    name != [] && name[|name| - 1] == DOT
  }

  /** Splitting a name at its dots and joining the labels gives the name back, but for one trailing dot. */
  lemma {:induction false} JoinOfLabels(name: seq<byte>, text: seq<byte>)
    requires Labels(name).Some? && name != []
    ensures AddLabel(text, name) ==
      JoinAfter(text, Labels(name).value) + (if EndsInDot(name) then [DOT] else [])
    decreases |name|
  {
    hide Labels, DotAt, JoinAfter, AddLabel;
    var i := DotAt(name);
    var part, ls := name[..i], Labels(name).value;
    LabelsUnfold(name);
    var rest := AfterLabel(name);
    assert ls[1..] == Labels(rest).value;
    JoinUnfold(text, ls);
    DotsBetween(text, name);
    if rest != [] {
      JoinOfLabels(rest, AddLabel(text, part));
    } else {
      NoLabels(AddLabel(text, part));
    }
  }

  lemma JoinUnfold(text: seq<byte>, labels: seq<seq<byte>>)
    requires labels != []
    ensures JoinAfter(text, labels) == JoinAfter(AddLabel(text, labels[0]), labels[1..])
  {
  }

  lemma NoLabels(text: seq<byte>)
    ensures Labels([]) == Some([]) && JoinAfter(text, []) == text
  {
  }

  /** A name is its first label, and then its dot and the rest if there are any. */
  lemma DotsBetween(text: seq<byte>, name: seq<byte>)
    requires name != [] && DotAt(name) > 0
    ensures var part, rest := name[..DotAt(name)], AfterLabel(name);
      if rest != [] then
        AddLabel(text, name) == AddLabel(AddLabel(text, part), rest) && (EndsInDot(name) <==> EndsInDot(rest))
      else AddLabel(text, name) == AddLabel(text, part) + (if EndsInDot(name) then [DOT] else [])
  {
    hide DotAt;
    var i := DotAt(name);
    if i < |name| {
      assert name == name[..i] + [DOT] + name[i + 1..];
      assert AddLabel(text, name) == AddLabel(text, name[..i]) + [DOT] + name[i + 1..];
      assert name[i + 1..] != [] ==> name[i + 1..][|name| - i - 2] == name[|name| - 1];
    } else {
      assert name[..i] == name;
      assert !EndsInDot(name) by {
        assert DOT !in name[..i];
        assert name[i - 1] in name[..i];
      }
    }
  }

  /** The text of a name's labels is the name itself exactly when it does not end in a dot. */
  lemma JoinIsNameIff(name: seq<byte>)
    requires Labels(name).Some?
    ensures Join(Labels(name).value) == name <==> !EndsInDot(name)
  {
    hide Labels, JoinAfter;
    if name == [] {
      NoLabels([]);
    } else {
      JoinOfLabels(name, []);
      assert AddLabel([], name) == name;
      var t := JoinAfter([], Labels(name).value);
      assert t + [] == t;
      if EndsInDot(name) {
        assert |t| + 1 == |name|;
      }
    }
  }

  lemma {:induction false} DotAtSnoc(name: seq<byte>)
    ensures DotAt(name + [DOT]) == DotAt(name)
  {
    if name != [] && name[0] != DOT {
      DotAtSnoc(name[1..]);
      assert (name + [DOT])[1..] == name[1..] + [DOT];
    }
  }

  lemma SnocSlices(s: seq<byte>, x: byte, i: nat)
    requires i <= |s|
    ensures (s + [x])[..i] == s[..i]
    ensures (s + [x])[i + 1..] == if i < |s| then s[i + 1..] + [x] else []
  {
  }

  lemma DotBehind(name: seq<byte>)
    ensures var dotted, i := name + [DOT], DotAt(name);
      && DotAt(dotted) == i && dotted[..i] == name[..i]
      && AfterLabel(dotted) == (if i < |name| then AfterLabel(name) + [DOT] else [])
  {
    hide DotAt;
    DotAtSnoc(name);
    SnocSlices(name, DOT, DotAt(name));
  }

  lemma EndsInDotBehind(name: seq<byte>, i: nat)
    requires i < |name| && name[i] == DOT
    ensures EndsInDot(name) <==> i + 1 == |name| || EndsInDot(name[i + 1..])
  {
    if i + 1 < |name| {
      var rest := name[i + 1..];
      assert rest[|rest| - 1] == name[|name| - 1];
    }
  }

  /** A name ends in a dot exactly when it has a first dot and nothing, or such a name, follows that. */
  lemma EndsInDotStep(name: seq<byte>)
    requires name != []
    ensures EndsInDot(name) <==>
      DotAt(name) < |name| && (AfterLabel(name) == [] || EndsInDot(AfterLabel(name)))
  {
    hide DotAt, EndsInDot;
    var i := DotAt(name);
    if i < |name| {
      EndsInDotBehind(name, i);
    } else {
      DotFree(name);
    }
  }

  lemma DotFree(name: seq<byte>)
    requires DotAt(name) == |name|
    ensures !EndsInDot(name)
  {
    hide DotAt;
    assert name[..|name|] == name;
  }

  lemma {:induction false} NoDot(l: seq<byte>, rest: seq<byte>)
    requires DOT !in l
    ensures DotAt(l + [DOT] + rest) == DotAt(l) == |l|
    decreases |l|
  {
    var s := l + [DOT] + rest;
    if l != [] {
      assert s[0] == l[0] && s[1..] == l[1..] + [DOT] + rest;
      assert DotAt(s) == 1 + DotAt(s[1..]);
      NoDot(l[1..], rest);
    }
  }

  /** Two labels with a dot between them, byte by byte; a label has one to 63 bytes. */
  lemma TwoLabels(a: seq<byte>, b: seq<byte>)
    requires 0x2e !in a && 0x2e !in b && a != [] && b != []
    ensures NameBytes(a + [0x2e] + b) ==
      if |a| <= 63 && |b| <= 63 then Some([|a|] + a + [|b|] + b + [0]) else None
  {
    var name := a + [DOT] + b;
    NoDot(a, b);
    NoDot(b, []);
    hide DotAt, Labels;
    assert name[..|a|] == a && name[|a| + 1..] == b && b[..|b|] == b;
    NoLabels([]);
    LabelsUnfold(name);
    LabelsUnfold(b);
    if |a| <= 63 && |b| <= 63 {
      assert [b] + [] == [b] && [a] + [b] == [a, b];
      WireOfTwo(a, b);
    }
  }

  lemma WireOfTwo(a: seq<byte>, b: seq<byte>)
    requires |a| <= 63 && |b| <= 63
    ensures WireName([a, b]) == [|a|] + a + [|b|] + b + [0]
  {
    assert [a, b][1..] == [b] && [b][1..] == [];
    assert WireName([]) == [0];
    assert WireName([b]) == [|b|] + b + [0];
    assert WireName([a, b]) == [|a|] + a + WireName([b]);
  }

  /** One dot behind a name changes nothing in its wire form; behind no name, or behind another dot, it is refused. */
  lemma {:induction false} TrailingDotEncodes(name: seq<byte>)
    ensures Labels(name + [DOT]) == if name == [] || EndsInDot(name) then None else Labels(name)
    decreases |name|
  {
    LabelsUnfold(name + [DOT]);
    if name == [] {
      assert [] + [DOT] == [DOT];
    } else {
      hide DotAt, Labels, AfterLabel, EndsInDot;
      LabelsUnfold(name);
      DotBehind(name);
      EndsInDotStep(name);
      if DotAt(name) < |name| {
        AfterLabelShorter(name);
        TrailingDotEncodes(AfterLabel(name));
      } else {
        NoLabels([]);
        LastLabel(name);
      }
    }
  }

  lemma AfterLabelShorter(name: seq<byte>)
    requires DotAt(name) < |name|
    ensures |AfterLabel(name)| < |name|
  {
  }

  lemma LastLabel(name: seq<byte>)
    requires DotAt(name) == |name|
    ensures AfterLabel(name) == []
  {
  }

  // ---- Decoding ----

  /**
   * decode_name from a position on, with the text so far; a checked pointer must lie in the message, as the
   * server tests and the client does not. The result is the offset behind the name, and the name.
   */
  function DecodeFrom(wire: seq<byte>, pos: nat, text: seq<byte>, cap: nat, checked: bool): Option<(nat, seq<byte>)>
    decreases |wire| - pos
  {
    if pos >= |wire| then Some((pos, text))
    else
      var b := wire[pos];
      if b == 0 then Some((pos + 1, text))
      else if b / 0x40 == 3 then
        if checked && pos + 2 > |wire| then None else Some((pos + 2, text))
      else if b / 0x40 != 0 then None
      else if pos + 1 + b > |wire| then None
      else if |text| + b + 2 > cap then None
      else DecodeFrom(wire, pos + 1 + b, AddLabel(text, wire[pos + 1..pos + 1 + b]), cap, checked)
  }

  /** decode_name: the text and its terminator in the caller's buffer, the offset moved behind the name. */
  method DecodeName(wire: seq<byte>, offset: nat, out: array<byte>, checked: bool)
    returns (r: int, next: nat, ghost text: seq<byte>)
    requires out.Length > 0
    modifies out
    ensures r == 0 || r == -1
    ensures r == 0 <==> DecodeFrom(wire, offset, [], out.Length, checked).Some?
    ensures r == 0 ==> DecodeFrom(wire, offset, [], out.Length, checked) == Some((next, text))
    ensures r == 0 ==> |text| < out.Length && out[..|text|] == text && out[|text|] == 0
    ensures r == -1 ==> next == offset
  {
    hide AddLabel;
    var pos, outPos: nat := offset, 0;
    text := [];
    while pos < |wire|
      invariant outPos == |text| < out.Length && out[..outPos] == text
      invariant DecodeFrom(wire, offset, [], out.Length, checked) == DecodeFrom(wire, pos, text, out.Length, checked)
      decreases |wire| - pos
    {
      var b := wire[pos];
      if b == 0 {
        pos := pos + 1;
        out[outPos] := 0;
        return 0, pos, text;
      }
      if b / 0x40 == 3 {
        if checked && pos + 2 > |wire| {
          return -1, offset, text;
        }
        pos := pos + 2;
        out[outPos] := 0;
        return 0, pos, text;
      }
      if b / 0x40 != 0 {
        return -1, offset, text;
      }
      var labelLen := b;
      if pos + 1 + labelLen > |wire| {
        return -1, offset, text;
      }
      if outPos + labelLen + 2 > out.Length {
        return -1, offset, text;
      }
      var part := wire[pos + 1..pos + 1 + labelLen];
      outPos := AppendLabel(out, outPos, part, text);
      text := AddLabel(text, part);
      pos := pos + 1 + labelLen;
    }
    out[outPos] := 0;
    return 0, pos, text;
  }

  method AppendLabel(out: array<byte>, at: nat, part: seq<byte>, ghost text: seq<byte>) returns (outPos: nat)
    requires at == |text| && at + |part| + 2 <= out.Length && out[..at] == text
    modifies out
    ensures outPos == |AddLabel(text, part)| < out.Length && out[..outPos] == AddLabel(text, part)
  {
    outPos := at;
    if outPos > 0 {
      out[outPos] := DOT;
      outPos := outPos + 1;
      assert out[..outPos] == text + [DOT];
    }
    CopyInto(out, outPos, part);
    assert out[..outPos + |part|] == out[..outPos] + out[outPos..outPos + |part|];
    outPos := outPos + |part|;
  }

  /** Decoding a name's wire form gives its text exactly when the text fits the buffer with its terminator. */
  lemma {:induction false} DecodeOfWire(labels: seq<seq<byte>>, wire: seq<byte>, pos: nat, text: seq<byte>,
        checked: bool)
    requires forall l :: l in labels ==> IsLabel(l) && |l| <= MAX_LABEL
    requires pos + |WireName(labels)| <= |wire| && wire[pos..pos + |WireName(labels)|] == WireName(labels)
    requires |text| < MAX_NAME
    ensures DecodeFrom(wire, pos, text, MAX_NAME, checked) ==
      if |JoinAfter(text, labels)| < MAX_NAME then Some((pos + |WireName(labels)|, JoinAfter(text, labels))) else None
    decreases |labels|
  {
    hide JoinAfter, WireName;
    if labels == [] {
      NoLabels(text);
      RootOnly(wire, pos);
    } else {
      var l := labels[0];
      JoinUnfold(text, labels);
      WireHead(labels, wire, pos);
      DecodeStep(wire, pos, text, l, checked);
      if |text| + |l| + 2 <= MAX_NAME {
        DecodeOfWire(labels[1..], wire, pos + 1 + |l|, AddLabel(text, l), checked);
      }
    }
  }

  lemma RootOnly(wire: seq<byte>, pos: nat)
    requires pos + |WireName([])| <= |wire| && wire[pos..pos + |WireName([])|] == WireName([])
    ensures |WireName([])| == 1 && pos < |wire| && wire[pos] == 0
  {
    assert wire[pos..pos + 1][0] == wire[pos];
  }

  lemma WireHead(labels: seq<seq<byte>>, wire: seq<byte>, pos: nat)
    requires labels != [] && forall l :: l in labels ==> |l| <= MAX_LABEL
    requires pos + |WireName(labels)| <= |wire| && wire[pos..pos + |WireName(labels)|] == WireName(labels)
    ensures var n, rest := |labels[0]|, WireName(labels[1..]);
      && |WireName(labels)| == 1 + n + |rest| && pos + 1 + n + |rest| <= |wire|
      && wire[pos] == n && wire[pos + 1..pos + 1 + n] == labels[0]
      && wire[pos + 1 + n..pos + 1 + n + |rest|] == rest
  {
    var w, n := WireName(labels), |labels[0]|;
    WireParts(labels);
    hide WireName;
    PartAt(wire, pos, w, 0, 1);
    PartAt(wire, pos, w, 1, 1 + n);
    PartAt(wire, pos, w, 1 + n, |w|);
    assert wire[pos..pos + 1][0] == wire[pos];
  }

  lemma WireParts(labels: seq<seq<byte>>)
    requires labels != [] && forall l :: l in labels ==> |l| <= MAX_LABEL
    ensures var w, n, rest := WireName(labels), |labels[0]|, WireName(labels[1..]);
      |w| == 1 + n + |rest| && w[0..1] == [n] && w[1..1 + n] == labels[0] && w[1 + n..] == rest
  {
    var rest := WireName(labels[1..]);
    assert WireName(labels) == [|labels[0]|] + labels[0] + rest;
    hide WireName;
  }

  lemma PartAt(s: seq<byte>, pos: nat, w: seq<byte>, i: nat, j: nat)
    requires pos + |w| <= |s| && s[pos..pos + |w|] == w && i <= j <= |w|
    ensures s[pos + i..pos + j] == w[i..j]
  {
    forall k | i <= k < j
      ensures s[pos + k] == w[k]
    {
      assert s[pos..pos + |w|][k] == s[pos + k];
    }
  }

  lemma DecodeStep(wire: seq<byte>, pos: nat, text: seq<byte>, l: seq<byte>, checked: bool)
    requires IsLabel(l) && pos + 1 + |l| <= |wire| && wire[pos] == |l| && wire[pos + 1..pos + 1 + |l|] == l
    ensures DecodeFrom(wire, pos, text, MAX_NAME, checked) ==
      if |text| + |l| + 2 > MAX_NAME then None
      else DecodeFrom(wire, pos + 1 + |l|, AddLabel(text, l), MAX_NAME, checked)
    ensures |text| + |l| + 2 > MAX_NAME <==> |AddLabel(text, l)| >= MAX_NAME
  {
  }

  /** Where decoding stops: at the end, the root byte, a pointer, a length of no meaning, or a label cut short. */
  lemma DecodeStops(wire: seq<byte>, pos: nat, text: seq<byte>, cap: nat, checked: bool)
    ensures pos >= |wire| ==> DecodeFrom(wire, pos, text, cap, checked) == Some((pos, text))
    ensures pos < |wire| && wire[pos] == 0 ==> DecodeFrom(wire, pos, text, cap, checked) == Some((pos + 1, text))
    ensures pos < |wire| && wire[pos] >= 0xC0 ==>
      DecodeFrom(wire, pos, text, cap, checked) == if checked && pos + 1 == |wire| then None else Some((pos + 2, text))
    ensures pos < |wire| && 0x40 <= wire[pos] < 0xC0 ==> DecodeFrom(wire, pos, text, cap, checked) == None
    ensures pos < |wire| && 0 < wire[pos] < 0x40 && pos + wire[pos] >= |wire| ==>
      DecodeFrom(wire, pos, text, cap, checked) == None
  {
  }

  // ---- Query and response ----

  /** The client's query: header, encoded name, type and class. */
  function Query(txid: u16, nameBytes: seq<byte>, qtype: u16): (q: seq<byte>)
    ensures |q| == HEADER + |nameBytes| + 4
  {
    PutU16(txid) + PutU16(0x0100) + PutU16(1) + PutU16(0) + PutU16(0) + PutU16(0)
      + nameBytes + PutU16(qtype) + PutU16(1)
  }

  /** The query byte by byte: one question, recursion desired, class IN. */
  lemma QueryLayout(txid: u16, w: seq<byte>, qtype: u16)
    ensures Query(txid, w, qtype) ==
      [txid / 0x100, txid % 0x100, 1, 0, 0, 1, 0, 0, 0, 0, 0, 0] + w + [qtype / 0x100, qtype % 0x100, 0, 1]
  {
    var head := PutU16(txid) + PutU16(0x0100) + PutU16(1) + PutU16(0) + PutU16(0) + PutU16(0);
    assert head == [txid / 0x100, txid % 0x100, 1, 0, 0, 1, 0, 0, 0, 0, 0, 0];
    assert PutU16(qtype) + PutU16(1) == [qtype / 0x100, qtype % 0x100, 0, 1];
    assert Query(txid, w, qtype) == head + w + (PutU16(qtype) + PutU16(1));
  }

  /** An answer address as inet_pton sees it. */
  datatype Answer = NoAnswer | BadAddress | Address(a: byte, b: byte, c: byte, d: byte)

  /** Where the loop of build_response stops: at a zero byte or past the end. */
  function NameEnd(query: seq<byte>, pos: nat): (end: nat)
    ensures end >= pos
    decreases |query| - pos
  {
    if pos < |query| && query[pos] != 0 then NameEnd(query, pos + 1 + query[pos]) else pos
  }

  function Flags(rcode: nat): u16 {
    0x8000 + 0x400 + 0x100 + 0x80 + rcode % 0x10
  }

  function AnswerBytes(answer: Answer): (s: seq<byte>)
    requires answer.Address?
    ensures |s| == 16
  {
    [0xC0, 0x0C] + PutU16(1) + PutU16(1) + PutU32(60) + PutU16(4) + [answer.a, answer.b, answer.c, answer.d]
  }

  function ResponseHeader(query: seq<byte>, rcode: nat, answered: bool): (h: seq<byte>)
    requires |query| >= HEADER
    ensures |h| == HEADER
  {
    query[..2] + PutU16(Flags(rcode)) + PutU16(1) + PutU16(if answered then 1 else 0) + PutU16(0) + PutU16(0)
  }

  /** build_response: the question is echoed up to its root byte. */
  function Response(query: seq<byte>, qtype: u16, rcode: nat, answer: Answer): Option<seq<byte>> {
    if |query| < HEADER then None
    else
      var answered := rcode == 0 && !answer.NoAnswer?;
      var header := ResponseHeader(query, rcode, answered);
      if |query| == HEADER then Some(header)
      else
        var end := NameEnd(query, HEADER);
        if end >= |query| then None
        else
          var question := query[HEADER..end + 1] + PutU16(qtype) + PutU16(1);
          if HEADER + |question| > MAX_WIRE then None
          else if !answered then Some(header + question)
          else if HEADER + |question| + 16 > MAX_WIRE then None
          else if answer.BadAddress? then None
          else Some(header + question + AnswerBytes(answer))
  }

  lemma HeaderLayout(query: seq<byte>, rcode: nat, answered: bool)
    requires |query| >= 12
    ensures ResponseHeader(query, rcode, answered) ==
      [query[0], query[1], 0x85, 0x80 + rcode % 16, 0, 1, 0, if answered then 1 else 0, 0, 0, 0, 0]
  {
    assert Flags(rcode) == 0x8580 + rcode % 16;
  }

  /** The one answer: a pointer to the question's name, type A, class IN, a minute to live, and the address. */
  lemma AnswerLayout(a: byte, b: byte, c: byte, d: byte)
    ensures AnswerBytes(Address(a, b, c, d)) == [0xC0, 0x0C, 0, 1, 0, 1, 0, 0, 0, 60, 0, 4, a, b, c, d]
  {
  }

  /**
   * There is a response when the query holds a header, and behind that a question's name up to its root byte or
   * nothing; the whole must fit 1024 bytes, and the address must be one.
   */
  lemma ResponseIff(query: seq<byte>, qtype: u16, rcode: nat, answer: Answer)
    ensures var end, answered := NameEnd(query, 12), rcode == 0 && !answer.NoAnswer?;
      Response(query, qtype, rcode, answer).Some? <==>
        || |query| == 12
        || (12 < |query| && end < |query| && end + 5 + (if answered then 16 else 0) <= 1024
            && (answered ==> answer.Address?))
  {
    hide NameEnd, ResponseHeader, AnswerBytes, PutU16;
  }

  /** The response byte by byte. */
  lemma ResponseLayout(query: seq<byte>, qtype: u16, rcode: nat, answer: Answer)
    requires Response(query, qtype, rcode, answer).Some?
    ensures |query| >= 12 && (|query| > 12 ==> NameEnd(query, 12) < |query|)
    ensures var answered := rcode == 0 && !answer.NoAnswer?;
      var header := [query[0], query[1], 0x85, 0x80 + rcode % 16, 0, 1, 0, if answered then 1 else 0, 0, 0, 0, 0];
      Response(query, qtype, rcode, answer).value ==
        if |query| == 12 then header
        else
          var question := query[12..NameEnd(query, 12) + 1] + [qtype / 0x100, qtype % 0x100, 0, 1];
          if !answered then header + question
          else
            assert answer.Address?;
            header + question + [0xC0, 0x0C, 0, 1, 0, 1, 0, 0, 0, 60, 0, 4, answer.a, answer.b, answer.c, answer.d]
  {
    hide NameEnd, ResponseHeader, AnswerBytes, PutU16;
    var answered := rcode == 0 && !answer.NoAnswer?;
    var r, header := Response(query, qtype, rcode, answer).value, ResponseHeader(query, rcode, answered);
    HeaderLayout(query, rcode, answered);
    if |query| > 12 {
      var name := query[12..NameEnd(query, 12) + 1];
      var question := name + PutU16(qtype) + PutU16(1);
      QuestionLayout(name, qtype);
      if answered {
        assert r == header + question + AnswerBytes(answer);
        AnswerLayout(answer.a, answer.b, answer.c, answer.d);
      } else {
        assert r == header + question;
      }
    }
  }

  lemma QuestionLayout(name: seq<byte>, qtype: u16)
    ensures name + PutU16(qtype) + PutU16(1) == name + [qtype / 0x100, qtype % 0x100, 0, 1]
  {
    assert PutU16(qtype) + PutU16(1) == [qtype / 0x100, qtype % 0x100, 0, 1];
  }

  /** The name's end is found at its root byte. */
  lemma {:induction false} NameEndOfWire(labels: seq<seq<byte>>, wire: seq<byte>, pos: nat)
    requires forall l :: l in labels ==> IsLabel(l) && |l| <= MAX_LABEL
    requires pos + |WireName(labels)| <= |wire| && wire[pos..pos + |WireName(labels)|] == WireName(labels)
    ensures NameEnd(wire, pos) == pos + |WireName(labels)| - 1
    decreases |labels|
  {
    hide WireName;
    if labels == [] {
      RootOnly(wire, pos);
    } else {
      WireHead(labels, wire, pos);
      NameEndOfWire(labels[1..], wire, pos + 1 + |labels[0]|);
    }
  }

  /** The message carries this name from the header on, and something behind it. */
  ghost predicate Carries(message: seq<byte>, w: seq<byte>) {
    HEADER + |w| <= |message| && message[HEADER..HEADER + |w|] == w
  }

  lemma QueryCarries(txid: u16, w: seq<byte>, qtype: u16)
    ensures Carries(Query(txid, w, qtype), w)
  {
    hide PutU16;
    var head := PutU16(txid) + PutU16(0x0100) + PutU16(1) + PutU16(0) + PutU16(0) + PutU16(0);
    assert |head| == HEADER && Query(txid, w, qtype) == head + w + (PutU16(qtype) + PutU16(1));
  }

  /** The response to a query for a name: there is one when it fits, and it carries the same name. */
  lemma ResponseCarries(query: seq<byte>, labels: seq<seq<byte>>, qtype: u16, rcode: nat, answer: Answer)
    requires forall l :: l in labels ==> IsLabel(l) && |l| <= MAX_LABEL
    requires Carries(query, WireName(labels))
    ensures Response(query, qtype, rcode, answer).Some? ==>
      Carries(Response(query, qtype, rcode, answer).value, WireName(labels))
    ensures HEADER + |WireName(labels)| + 20 <= MAX_WIRE && !answer.BadAddress? ==>
      Response(query, qtype, rcode, answer).Some?
  {
    hide PutU16, PutU32, NameEnd, WireName, ResponseHeader, AnswerBytes;
    NameEndOfWire(labels, query, HEADER);
    var r := Response(query, qtype, rcode, answer);
    if r.Some? {
      var header := ResponseHeader(query, rcode, rcode == 0 && !answer.NoAnswer?);
      HeaderThenName(r.value, header, WireName(labels), PutU16(qtype) + PutU16(1),
                     if rcode == 0 && !answer.NoAnswer? then AnswerBytes(answer) else []);
    }
  }

  lemma HeaderThenName(r: seq<byte>, header: seq<byte>, w: seq<byte>, tail: seq<byte>, more: seq<byte>)
    requires |header| == HEADER && r == header + (w + tail) + more
    ensures Carries(r, w)
  {
    assert r == header + w + (tail + more);
  }

  lemma {:induction false} WireLength(labels: seq<seq<byte>>, text: seq<byte>)
    requires forall l :: l in labels ==> IsLabel(l) && |l| <= MAX_LABEL
    ensures |WireName(labels)| + |text| == |JoinAfter(text, labels)| + (if text == [] && labels != [] then 2 else 1)
    decreases |labels|
  {
    if labels != [] {
      WireLength(labels[1..], AddLabel(text, labels[0]));
    }
  }

  /** Either side decodes a message that carries a name to that name exactly when it fits and has no trailing dot. */
  lemma CarriedNameIff(message: seq<byte>, name: seq<byte>, checked: bool)
    requires NameBytes(name).Some? && Carries(message, NameBytes(name).value)
    ensures DecodeFrom(message, HEADER, [], MAX_NAME, checked) == Some((HEADER + |NameBytes(name).value|, name))
      <==> |name| <= 255 && !EndsInDot(name)
  {
    hide DecodeFrom, Labels;
    var labels := Labels(name).value;
    GoodLabels(name);
    DecodeOfWire(labels, message, HEADER, [], checked);
    JoinIsNameIff(name);
  }

  /** A carried name with a trailing dot comes back without the dot, exactly when it then fits. */
  lemma TrailingDotDropped(message: seq<byte>, name: seq<byte>, checked: bool)
    requires EndsInDot(name) && NameBytes(name).Some? && Carries(message, NameBytes(name).value)
    ensures DecodeFrom(message, HEADER, [], MAX_NAME, checked) ==
      if |name| <= 256 then Some((HEADER + |NameBytes(name).value|, name[..|name| - 1])) else None
  {
    hide DecodeFrom, Labels, JoinAfter, WireName;
    var labels := Labels(name).value;
    GoodLabels(name);
    DecodeOfWire(labels, message, HEADER, [], checked);
    JoinOfLabels(name, []);
    assert JoinAfter([], labels) + [DOT] == name;
    assert JoinAfter([], labels) == name[..|name| - 1];
  }

  lemma GoodLabels(name: seq<byte>)
    requires Labels(name).Some?
    ensures forall l :: l in Labels(name).value ==> IsLabel(l) && |l| <= MAX_LABEL
  {
  }

  /**
   * Query and response: the server decodes the name the client asked for, always has a response, and the client
   * decodes the same name from it with the offset just past the root byte, exactly for names of at most 255
   * bytes without a trailing dot.
   */
  lemma NameComesBackIff(name: seq<byte>, txid: u16, qtype: u16, rcode: nat, answer: Answer)
    requires NameBytes(name).Some? && !answer.BadAddress?
    ensures var w := NameBytes(name).value;
      var query := Query(txid, w, 1);
      var r := Response(query, qtype, rcode, answer);
      && (DecodeFrom(query, HEADER, [], MAX_NAME, true) == Some((HEADER + |w|, name))
          <==> |name| <= 255 && !EndsInDot(name))
      && (r.Some? && DecodeFrom(r.value, HEADER, [], MAX_NAME, false) == Some((HEADER + |w|, name))
          <==> |name| <= 255 && !EndsInDot(name))
  {
    hide DecodeFrom, Labels, Response, Query, JoinAfter;
    var w, labels := NameBytes(name).value, Labels(name).value;
    var query := Query(txid, w, 1);
    GoodLabels(name);
    QueryCarries(txid, w, 1);
    CarriedNameIff(query, name, true);
    ResponseCarries(query, labels, qtype, rcode, answer);
    if Response(query, qtype, rcode, answer).Some? {
      CarriedNameIff(Response(query, qtype, rcode, answer).value, name, false);
    }
    WireLength(labels, []);
    JoinIsNameIff(name);
  }

  lemma HeaderFields(query: seq<byte>, rcode: nat, answered: bool, rest: seq<byte>)
    requires |query| >= HEADER
    ensures var r := ResponseHeader(query, rcode, answered) + rest;
      && GetU16(r) == GetU16(query) && GetU16(r[2..]) == Flags(rcode)
      && GetU16(r[4..]) == 1 && GetU16(r[6..]) == if answered then 1 else 0
  {
    hide PutU16, Flags, GetU16;
    var r := ResponseHeader(query, rcode, answered) + rest;
    var count: u16 := if answered then 1 else 0;
    assert r[6..] == PutU16(count) + (PutU16(0) + PutU16(0) + rest);
    PutGetU16(count, PutU16(0) + PutU16(0) + rest);
    assert r[4..] == PutU16(1) + r[6..];
    PutGetU16(1, r[6..]);
    assert r[2..] == PutU16(Flags(rcode)) + r[4..];
    PutGetU16(Flags(rcode), r[4..]);
    FirstTwo(r, query);
  }

  lemma FirstTwo(r: seq<byte>, query: seq<byte>)
    requires |r| >= 2 && |query| >= 2 && r[..2] == query[..2]
    ensures GetU16(r) == GetU16(query)
  {
    assert r[..2][0] == query[..2][0] && r[..2][1] == query[..2][1];
  }

  /**
   * What the client reads of a response: its own query id, the response bit and code, the answer count, the
   * address.
   */
  lemma ResponseReads(query: seq<byte>, qtype: u16, rcode: nat, answer: Answer)
    requires Response(query, qtype, rcode, answer).Some? && |query| > HEADER
    ensures var r := Response(query, qtype, rcode, answer).value;
      && |r| >= HEADER && GetU16(r) == GetU16(query)
      && GetU16(r[2..]) / 0x8000 == 1 && GetU16(r[2..]) % 0x10 == rcode % 0x10
      && GetU16(r[6..]) == (if rcode == 0 && !answer.NoAnswer? then 1 else 0)
      && (rcode == 0 && answer.Address? ==> r[|r| - 4..] == [answer.a, answer.b, answer.c, answer.d])
  {
    hide GetU16, PutU16, PutU32, ResponseHeader, NameEnd;
    var r := Response(query, qtype, rcode, answer).value;
    var header := ResponseHeader(query, rcode, rcode == 0 && !answer.NoAnswer?);
    var question := query[HEADER..NameEnd(query, HEADER) + 1] + PutU16(qtype) + PutU16(1);
    var rest := question + (if rcode == 0 && !answer.NoAnswer? then AnswerBytes(answer) else []);
    assert r == header + rest;
    HeaderFields(query, rcode, rcode == 0 && !answer.NoAnswer?, rest);
    FlagBits(rcode);
    if rcode == 0 && answer.Address? {
      assert rest[|rest| - 16..] == AnswerBytes(answer);
      assert r[|r| - 4..] == AnswerBytes(answer)[12..];
    }
  }

  lemma FlagBits(rcode: nat)
    ensures Flags(rcode) / 0x8000 == 1 && Flags(rcode) % 0x10 == rcode % 0x10
  {
  }

  // ---- build_response ----

  method PutHeader(query: seq<byte>, rcode: nat, answered: bool, resp: array<byte>)
    requires |query| >= HEADER && resp.Length == MAX_WIRE
    modifies resp
    ensures resp[..HEADER] == ResponseHeader(query, rcode, answered)
  {
    hide PutU16, Flags;
    CopyInto(resp, 0, query[..HEADER]);
    assert resp[..2] == query[..2];
    CopyInto(resp, 2, PutU16(Flags(rcode)));
    assert resp[..4] == query[..2] + PutU16(Flags(rcode));
    CopyInto(resp, 4, PutU16(1));
    assert resp[..6] == resp[..4] + PutU16(1);
    CopyInto(resp, 6, PutU16(if answered then 1 else 0));
    assert resp[..8] == resp[..6] + PutU16(if answered then 1 else 0);
    CopyInto(resp, 8, PutU16(0));
    assert resp[..10] == resp[..8] + PutU16(0);
    CopyInto(resp, 10, PutU16(0));
    assert resp[..HEADER] == resp[..10] + PutU16(0);
  }

  /** Write after what is there. */
  method Append(resp: array<byte>, pos: nat, s: seq<byte>) returns (next: nat)
    requires pos + |s| <= resp.Length
    modifies resp
    ensures next == pos + |s| && resp[..next] == old(resp[..pos]) + s
  {
    CopyInto(resp, pos, s);
    assert resp[..pos + |s|] == resp[..pos] + resp[pos..pos + |s|];
    next := pos + |s|;
  }

  method FindNameEnd(query: seq<byte>) returns (pos: nat)
    requires |query| >= HEADER
    ensures pos == NameEnd(query, HEADER)
  {
    pos := HEADER;
    while pos < |query| && query[pos] != 0
      invariant HEADER <= pos && NameEnd(query, HEADER) == NameEnd(query, pos)
      decreases |query| - pos
    {
      pos := pos + 1 + query[pos];
    }
  }

  method BuildResponse(query: seq<byte>, qtype: u16, rcode: nat, answer: Answer, resp: array<byte>)
    returns (r: int, respLen: nat)
    requires resp.Length == MAX_WIRE
    modifies resp
    ensures r == 0 || r == -1
    ensures r == 0 <==> Response(query, qtype, rcode, answer).Some?
    ensures r == 0 ==> respLen <= MAX_WIRE && Response(query, qtype, rcode, answer) == Some(resp[..respLen])
  {
    hide PutU16, PutU32, ResponseHeader, NameEnd;
    respLen := 0;
    if |query| < HEADER {
      return -1, 0;
    }
    var answered := rcode == 0 && !answer.NoAnswer?;
    PutHeader(query, rcode, answered, resp);
    if HEADER >= |query| {
      return 0, HEADER;
    }
    var pos := FindNameEnd(query);
    if pos >= |query| {
      return -1, 0;
    }
    var nameBytes := pos - HEADER + 1;
    if HEADER + nameBytes + 4 > MAX_WIRE {
      return -1, 0;
    }
    ghost var header := resp[..HEADER];
    ghost var question := query[HEADER..pos + 1] + PutU16(qtype) + PutU16(1);
    pos := Append(resp, HEADER, query[HEADER..pos + 1]);
    pos := Append(resp, pos, PutU16(qtype));
    pos := Append(resp, pos, PutU16(1));
    assert resp[..pos] == header + question;
    if answered {
      if pos + 2 + 2 + 2 + 4 + 2 + 4 > MAX_WIRE {
        return -1, 0;
      }
      if answer.BadAddress? {
        return -1, 0;
      }
      pos := PutAnswer(resp, pos, answer);
    }
    return 0, pos;
  }

  /** The answer section: a pointer to the question's name, type A, class IN, TTL 60 and the address. */
  method PutAnswer(resp: array<byte>, start: nat, answer: Answer) returns (pos: nat)
    requires answer.Address? && start + 16 <= resp.Length
    modifies resp
    ensures pos == start + 16 && resp[..pos] == old(resp[..start]) + AnswerBytes(answer)
  {
    hide PutU16, PutU32;
    pos := Append(resp, start, [0xC0, 0x0C]);
    pos := Append(resp, pos, PutU16(1));
    pos := Append(resp, pos, PutU16(1));
    pos := Append(resp, pos, PutU32(60));
    pos := Append(resp, pos, PutU16(4));
    pos := Append(resp, pos, [answer.a, answer.b, answer.c, answer.d]);
  }
}
