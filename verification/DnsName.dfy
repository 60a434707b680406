/**
  DNS names on the wire: length-prefixed labels and a closing zero byte (section 3.1 of RFC 1035).
  Names and labels are byte strings.

  An encoder is described by the bytes it puts into a buffer with so much room and by how it ends. The
  source reads and writes some length bytes without looking at the room left; what it does then is
  undefined, and the outcome says so.
*/
module DnsName {
  import opened Bytes

  type Text = seq<byte>

  const DOT: byte := 46
  const MAX_LABEL := 63

  datatype Status = Done | Refused | PastEnd | PopsEmpty

  datatype Write = Write(bytes: Text, status: Status)

  // ---------------------------------------------------------------- dotted names

  /** The place of the first dot, or the length if there is none. */
  function DotAt(s: Text): (n: nat)
    ensures n <= |s|
  {
    if s == [] || s[0] == DOT then 0 else 1 + DotAt(s[1..])
  }

  /** `split` at each dot, keeping empty pieces. */
  function Split(s: Text): seq<Text>
  {
    var n := DotAt(s);
    [s[..n]] + if n == |s| then [] else Split(s[n + 1..])
  }

  function StripDot(name: Text): Text
  {
    if name != [] && name[|name| - 1] == DOT then name[..|name| - 1] else name
  }

  /** Each label followed by a dot. */
  function Dotted(labels: seq<Text>): Text
  {
    if labels == [] then [] else labels[0] + [DOT] + Dotted(labels[1..])
  }

  /** The fully qualified spelling: exactly one dot more than the stripped name. */
  function Canonical(name: Text): Text
  {
    StripDot(name) + [DOT]
  }

  lemma {:induction false} DotAtIs(s: Text)
    ensures var n := DotAt(s); DOT !in s[..n] && (n < |s| ==> s[n] == DOT)
  {
    if s != [] && s[0] != DOT {
      DotAtIs(s[1..]);
      assert s[..DotAt(s)] == [s[0]] + s[1..][..DotAt(s[1..])];
    }
  }

  lemma {:induction false} DotIsAt(s: Text, n: nat)
    requires n <= |s| && DOT !in s[..n] && (n == |s| || s[n] == DOT)
    ensures DotAt(s) == n
  {
    if n > 0 {
      assert s[..n][0] == s[0] && s[1..][..n - 1] == s[..n][1..];
      DotIsAt(s[1..], n - 1);
    }
  }

  lemma {:induction false} DottedSplit(s: Text)
    ensures Dotted(Split(s)) == s + [DOT]
  {
    var n := DotAt(s);
    DotAtIs(s);
    if n < |s| {
      DottedSplit(s[n + 1..]);
      assert Split(s)[1..] == Split(s[n + 1..]);
      assert s + [DOT] == s[..n] + [DOT] + (s[n + 1..] + [DOT]);
    } else {
      assert Split(s)[1..] == [] && s[..n] == s;
    }
  }

  /** The labels joined by dots, without a dot at the end. */
  function Joined(labels: seq<Text>): Text
    requires labels != []
  {
    if |labels| == 1 then labels[0] else labels[0] + [DOT] + Joined(labels[1..])
  }

  predicate DotFree(labels: seq<Text>)
  {
    forall l | l in labels :: DOT !in l
  }

  lemma {:induction false} SplitJoined(labels: seq<Text>)
    requires labels != [] && DotFree(labels)
    ensures Split(Joined(labels)) == labels
  {
    var s, l := Joined(labels), labels[0];
    assert l in labels;
    if |labels| == 1 {
      assert s[..|l|] == l;
      DotIsAt(s, |l|);
    } else {
      assert s[..|l|] == l && s[|l|] == DOT && s[|l| + 1..] == Joined(labels[1..]);
      DotIsAt(s, |l|);
      SplitJoined(labels[1..]);
    }
  }

  // -------------------------------------------------------------------- encoding

  function PutZero(room: nat): (w: Write)
    ensures |w.bytes| <= room
  {
    if room < 1 then Write([], PastEnd) else Write([0], Done)
  }

  /** Goes on after something was written. */
  function After(bytes: Text, w: Write): Write
  {
    Write(bytes + w.bytes, w.status)
  }

  /** The length is written before the room for the label is looked at. */
  function PutLabel(part: Text, room: nat): (w: Write)
    ensures |w.bytes| <= room
  {
    var l := |part|;
    if l > MAX_LABEL then Write([], Refused)
    else if room < 1 then Write([], PastEnd)
    else if room - 1 < l then Write([l], Refused)
    else Write([l] + part, Done)
  }

  /** The loop of `EncodeNameTo`; an empty label ends it early. */
  function PutLabels(labels: seq<Text>, room: nat): (w: Write)
    ensures |w.bytes| <= room
  {
    if labels == [] then PutZero(room)
    else
      var first := PutLabel(labels[0], room);
      if first.status != Done then first
      else
        var left := room - |first.bytes|;
        After(first.bytes, if labels[0] == [] then PutZero(left) else PutLabels(labels[1..], left))
  }

  function EncodeName(name: Text, room: nat): (w: Write)
    ensures |w.bytes| <= room
  {
    PutLabels(Split(StripDot(name)), room)
  }

  // -------------------------------------------------------------------- decoding

  /** What was read, and where the cursor ends up. */
  datatype Read =
    | Name(name: Text, used: nat)
    | Malformed(used: nat)
    | ReadPastEnd(used: nat)
    | PopsNothing(used: nat)

  /** The loop of `DecodeName` over the bytes left in the buffer. */
  function GetLabels(data: Text): (r: Read)
    ensures r.used <= |data| && !r.PopsNothing?
  {
    if data == [] then ReadPastEnd(0)
    else
      var l: nat, rest := data[0], data[1..];
      if l == 0 then Name([], 1)
      else if |rest| < l then Malformed(1)
      else Resumed(rest[..l] + [DOT], 1 + l, GetLabels(rest[l..]))
  }

  /** What is known after some labels were read. */
  function Resumed(name: Text, used: nat, r: Read): (r': Read)
    ensures r'.used == used + r.used && (r'.Name? <==> r.Name?) && (r'.PopsNothing? <==> r.PopsNothing?)
  {
    match r
    case Name(more, n) => Name(name + more, used + n)
    case Malformed(n) => Malformed(used + n)
    case ReadPastEnd(n) => ReadPastEnd(used + n)
    case PopsNothing(n) => PopsNothing(used + n)
  }

  /** `DecodeName`; dropping the final dot of an empty name is undefined. */
  function DecodeName(data: Text, trimTrailingDot: bool): (r: Read)
    ensures r.used <= |data| && (r.PopsNothing? ==> trimTrailingDot)
  {
    if data == [] then Malformed(0)
    else
      var r := GetLabels(data);
      if !trimTrailingDot || !r.Name? then r
      else if r.name == [] then PopsNothing(r.used)
      else r.(name := r.name[..|r.name| - 1])
  }

  // ------------------------------------------------------------------ round trips

  /** The labels and the closing zero. */
  function Wire(labels: seq<Text>): Text
    requires LabelsOk(labels)
  {
    if labels == [] then [0] else assert labels[0] in labels; [|labels[0]|] + labels[0] + Wire(labels[1..])
  }

  predicate LabelsOk(labels: seq<Text>)
  {
    forall l | l in labels :: 1 <= |l| <= MAX_LABEL
  }

  /** Well-formed labels are written in full if and only if there is room for them. */
  lemma {:induction false} PutLabelsExactly(labels: seq<Text>, room: nat)
    requires LabelsOk(labels)
    ensures PutLabels(labels, room).status == Done <==> |Wire(labels)| <= room
    ensures |Wire(labels)| <= room ==> PutLabels(labels, room).bytes == Wire(labels)
    ensures |Wire(labels)| == |Dotted(labels)| + 1
  {
    if labels != [] {
      var l := |labels[0]|;
      assert labels[0] in labels;
      if room >= 1 + l {
        PutLabelsExactly(labels[1..], room - 1 - l);
      } else {
        PutLabelsExactly(labels[1..], 0);
      }
    }
  }

  lemma GetLabelsStep(data: Text, l: nat)
    requires data != [] && data[0] == l && 1 <= l <= |data| - 1 && GetLabels(data[1..][l..]).Name?
    ensures
      var r := GetLabels(data[1..][l..]);
      GetLabels(data) == Name(data[1..][..l] + [DOT] + r.name, 1 + l + r.used)
  {
  }

  /** A label in front of what is decoded next. */
  lemma GetLabelFirst(first: Text, more: Text)
    requires 1 <= |first| <= MAX_LABEL && GetLabels(more).Name?
    ensures
      var r := GetLabels(more);
      GetLabels([|first|] + first + more) == Name(first + [DOT] + r.name, 1 + |first| + r.used)
  {
    hide GetLabels;
    var data, rest := [|first|] + first + more, first + more;
    assert data[1..] == rest;
    assert rest[..|first|] == first && rest[|first|..] == more;
    GetLabelsStep(data, |first|);
  }

  lemma GetZero(rest: Text)
    ensures GetLabels([0] + rest) == Name([], 1)
  {
  }

  lemma {:induction false} GetLabelsOfWire(labels: seq<Text>, rest: Text)
    requires LabelsOk(labels)
    ensures GetLabels(Wire(labels) + rest) == Name(Dotted(labels), |Wire(labels)|)
  {
    hide GetLabels;
    if labels == [] {
      GetZero(rest);
    } else {
      var first := labels[0];
      assert first in labels;
      var wire := Wire(labels[1..]);
      assert Wire(labels) == [|first|] + first + wire;
      assert Dotted(labels) == first + [DOT] + Dotted(labels[1..]);
      GetLabelsOfWire(labels[1..], rest);
      hide LabelsOk, Wire, Dotted;
      GetLabelFirst(first, wire + rest);
      Regroup([|first|] + first, wire, rest);
    }
  }

  /** How many labels come before the first empty one. */
  function Leading(labels: seq<Text>): (k: nat)
    ensures k <= |labels|
  {
    if labels == [] || labels[0] == [] then 0 else 1 + Leading(labels[1..])
  }

  /** What a completed encoding wrote: the labels before the first empty one, and one zero more if there is one. */
  lemma {:induction false} WrittenLabels(labels: seq<Text>, room: nat)
    requires PutLabels(labels, room).status == Done
    ensures
      var k := Leading(labels);
      && LabelsOk(labels[..k])
      && PutLabels(labels, room).bytes == Wire(labels[..k]) + if k < |labels| then [0] else []
    decreases |labels|
  {
    hide PutLabels, Wire, LabelsOk;
    if labels == [] || labels[0] == [] {
      NoLabelsWritten(labels, room);
      assert labels[..0] == [];
    } else {
      var first, rest := labels[0], labels[1..];
      PutLabelsStep(labels, room);
      WrittenLabels(rest, room - 1 - |first|);
      var k := Leading(rest);
      var tail := if k < |rest| then [0] else [];
      WireStep(first, rest[..k]);
      assert labels[..k + 1] == [first] + rest[..k];
      Regroup([|first|] + first, Wire(rest[..k]), tail);
    }
  }

  lemma NoLabelsWritten(labels: seq<Text>, room: nat)
    requires PutLabels(labels, room).status == Done && (labels == [] || labels[0] == [])
    ensures LabelsOk([]) && PutLabels(labels, room).bytes == Wire([]) + if labels == [] then [] else [0]
  {
  }

  lemma Regroup(a: Text, b: Text, c: Text)
    ensures a + (b + c) == a + b + c
  {
  }

  lemma PutLabelsStep(labels: seq<Text>, room: nat)
    requires PutLabels(labels, room).status == Done && labels != [] && labels[0] != []
    ensures
      var first := labels[0];
      && |first| <= MAX_LABEL && 1 + |first| <= room
      && var rest := PutLabels(labels[1..], room - 1 - |first|);
         rest.status == Done && PutLabels(labels, room).bytes == [|first|] + first + rest.bytes
  {
  }

  lemma WireStep(first: Text, labels: seq<Text>)
    requires 1 <= |first| <= MAX_LABEL && LabelsOk(labels)
    ensures LabelsOk([first] + labels) && Wire([first] + labels) == [|first|] + first + Wire(labels)
  {
    assert ([first] + labels)[1..] == labels;
  }

  predicate NoEmptyLabel(labels: seq<Text>)
  {
    forall l | l in labels :: l != []
  }

  lemma {:induction false} LeadingIsAll(labels: seq<Text>)
    ensures Leading(labels) == |labels| <==> NoEmptyLabel(labels)
  {
    if labels != [] {
      assert labels[0] in labels;
      LeadingIsAll(labels[1..]);
      assert forall l | l in labels :: l == labels[0] || l in labels[1..];
      assert forall l | l in labels[1..] :: l in labels;
    }
  }

  lemma {:induction false} DottedShorter(labels: seq<Text>, k: nat)
    requires k < |labels|
    ensures |Dotted(labels[..k])| < |Dotted(labels)|
  {
    if k > 0 {
      assert labels[..k][1..] == labels[1..][..k - 1] && labels[..k][0] == labels[0];
      DottedShorter(labels[1..], k - 1);
    } else {
      assert labels[..k] == [];
    }
  }

  /** What is read of an encoded name: the labels before the first empty one; after that a byte is left over. */
  lemma EncodedIsRead(name: Text, room: nat, rest: Text)
    requires EncodeName(name, room).status == Done
    ensures
      var w := EncodeName(name, room).bytes;
      var labels := Split(StripDot(name));
      var k := Leading(labels);
      && w + rest != []
      && 1 <= |w| && GetLabels(w + rest) == Name(Dotted(labels[..k]), if k < |labels| then |w| - 1 else |w|)
  {
    hide Split, StripDot, PutLabels, GetLabels, Wire;
    var labels := Split(StripDot(name));
    var w := EncodeName(name, room).bytes;
    WrittenLabels(labels, room);
    var k := Leading(labels);
    var extra := if k < |labels| then [0] else [];
    GetLabelsOfWire(labels[..k], extra + rest);
    WireNotEmpty(labels[..k]);
    Regroup(Wire(labels[..k]), extra, rest);
  }

  /**
    A name that was encoded decodes to its fully qualified spelling if and only if it has no empty
    label, and then using up exactly the bytes written; with the final dot dropped, to the name as it
    was given without one.
  */
  lemma NameRoundTripExactly(name: Text, room: nat, rest: Text)
    requires EncodeName(name, room).status == Done
    ensures
      var w := EncodeName(name, room).bytes;
      var r := DecodeName(w + rest, false);
      && r.Name? && (r.name == Canonical(name) <==> NoEmptyLabel(Split(StripDot(name))))
      && (r == Name(Canonical(name), |w|) <==> NoEmptyLabel(Split(StripDot(name))))
      && (DecodeName(w + rest, true) == Name(StripDot(name), |w|) <==> NoEmptyLabel(Split(StripDot(name))))
  {
    hide EncodeName, Split, StripDot, GetLabels, NoEmptyLabel;
    var labels := Split(StripDot(name));
    EncodedIsRead(name, room, rest);
    LeadingIsAll(labels);
    DottedSplit(StripDot(name));
    var k := Leading(labels);
    if k == |labels| {
      assert labels[..k] == labels;
      assert Canonical(name)[..|StripDot(name)|] == StripDot(name);
    } else {
      DottedShorter(labels, k);
    }
  }

  lemma WireNotEmpty(labels: seq<Text>)
    requires LabelsOk(labels)
    ensures Wire(labels) != []
  {
  }

  /** Encoding a well-formed name succeeds if and only if there are two bytes more than it has characters. */
  lemma NameFitsExactly(name: Text, room: nat)
    requires LabelsOk(Split(StripDot(name)))
    ensures EncodeName(name, room).status == Done <==> |StripDot(name)| + 2 <= room
    ensures |StripDot(name)| + 2 <= room ==> |EncodeName(name, room).bytes| == |StripDot(name)| + 2
  {
    hide Split, StripDot, PutLabels, LabelsOk;
    PutLabelsExactly(Split(StripDot(name)), room);
    DottedSplit(StripDot(name));
  }

  /** For every non-empty list of dot-free labels of 1 to 63 bytes. */
  lemma LabelsRoundTrip(labels: seq<Text>, rest: Text)
    requires labels != [] && DotFree(labels) && LabelsOk(labels)
    ensures
      var name := Joined(labels);
      var w := EncodeName(name, |name| + 2);
      w.status == Done && DecodeName(w.bytes + rest, false) == Name(name + [DOT], |name| + 2)
  {
    var name := Joined(labels);
    SplitJoined(labels);
    assert name != [] && name[|name| - 1] != DOT by {
      LastByte(labels);
    }
    NameFitsExactly(name, |name| + 2);
    NameRoundTripExactly(name, |name| + 2, rest);
    hide Split, EncodeName, DecodeName, Joined;
  }

  lemma {:induction false} LastByte(labels: seq<Text>)
    requires labels != [] && DotFree(labels) && LabelsOk(labels)
    ensures Joined(labels) != [] && Joined(labels)[|Joined(labels)| - 1] != DOT
  {
    assert labels[0] in labels;
    if |labels| > 1 {
      LastByte(labels[1..]);
    } else {
      assert labels[0][|labels[0]| - 1] in labels[0];
    }
  }

  /** A name is encoded the same with a final dot and without one. */
  lemma FinalDotIsIgnored(name: Text, room: nat)
    requires name == [] || name[|name| - 1] != 46
    ensures EncodeName(name + [46], room) == EncodeName(name, room)
  {
    assert (name + [46])[..|name|] == name;
    hide PutLabels, Split;
  }

  // ------------------------------------------------------- what any bytes are read as

  /** Labels of any length a byte can give. */
  predicate AnyLabels(labels: seq<Text>)
  {
    forall l | l in labels :: 1 <= |l| < 256
  }

  /** The labels with their lengths, without a closing zero. */
  function Raw(labels: seq<Text>): Text
    requires AnyLabels(labels)
  {
    if labels == [] then [] else assert labels[0] in labels; [|labels[0]|] + labels[0] + Raw(labels[1..])
  }

  /** Nothing more can be read as a label: the bytes end, a zero comes, or a label that does not fit. */
  predicate Stops(tail: Text)
  {
    tail == [] || tail[0] == 0 || |tail| - 1 < tail[0]
  }

  /** A zero ends a name; the end of the bytes is run past; a label that does not fit is refused. */
  function StopsWith(name: Text, used: nat, tail: Text): Read
  {
    if tail == [] then ReadPastEnd(used) else if tail[0] == 0 then Name(name, used + 1) else Malformed(used + 1)
  }

  lemma RawStep(first: Text, labels: seq<Text>)
    requires 1 <= |first| < 256 && AnyLabels(labels)
    ensures AnyLabels([first] + labels) && Raw([first] + labels) == [|first|] + first + Raw(labels)
    ensures Dotted([first] + labels) == first + [DOT] + Dotted(labels)
  {
    assert ([first] + labels)[1..] == labels;
  }

  /** Any bytes at all are read as whole labels up to the first place where reading has to stop. */
  lemma {:induction false} ReadsWholeLabels(data: Text) returns (labels: seq<Text>, tail: Text)
    ensures AnyLabels(labels) && data == Raw(labels) + tail && Stops(tail)
    ensures GetLabels(data) == StopsWith(Dotted(labels), |Raw(labels)|, tail)
    decreases |data|
  {
    hide GetLabels, Raw, Dotted;
    if Stops(data) {
      labels, tail := [], data;
      StopsAtOnce(data);
    } else {
      var l: nat, rest := data[0], data[1..];
      var more;
      more, tail := ReadsWholeLabels(rest[l..]);
      labels := [rest[..l]] + more;
      RawStep(rest[..l], more);
      assert data == [l] + rest[..l] + rest[l..];
      Regroup([l] + rest[..l], Raw(more), tail);
      ReadsOn(data, l);
      hide Stops, AnyLabels;
      Resumes(rest[..l], Dotted(more), |Raw(more)|, tail);
    }
  }

  lemma StopsAtOnce(data: Text)
    requires Stops(data)
    ensures AnyLabels([]) && data == Raw([]) + data && GetLabels(data) == StopsWith(Dotted([]), |Raw([])|, data)
  {
  }

  lemma ReadsOn(data: Text, l: nat)
    requires !Stops(data) && l == data[0]
    ensures GetLabels(data) == Resumed(data[1..][..l] + [DOT], 1 + l, GetLabels(data[1..][l..]))
  {
  }

  lemma Resumes(first: Text, name: Text, used: nat, tail: Text)
    ensures
      Resumed(first + [DOT], 1 + |first|, StopsWith(name, used, tail)) ==
      StopsWith(first + [DOT] + name, 1 + |first| + used, tail)
  {
  }

  lemma {:induction false} DottedEnds(labels: seq<Text>)
    ensures labels != [] ==> Dotted(labels) != [] && Dotted(labels)[|Dotted(labels)| - 1] == DOT
  {
    if |labels| > 1 {
      DottedEnds(labels[1..]);
    }
  }

  /** Dropping the final dot drops exactly that, and is undefined exactly for the root. */
  lemma TrimExactly(data: Text)
    ensures
      var full, trimmed := DecodeName(data, false), DecodeName(data, true);
      && (trimmed.PopsNothing? <==> full.Name? && full.name == []) && !full.PopsNothing?
      && (trimmed.Name? <==> full.Name? && full.name != [])
      && (trimmed.Name? ==> trimmed.name + [DOT] == full.name && trimmed.used == full.used)
      && (!full.Name? ==> trimmed == full)
  {
    if data != [] {
      var labels, tail := ReadsWholeLabels(data);
      DottedEnds(labels);
    }
  }

  /** After `done` was written there was no room for a length, or the label was too long, or only its length fitted. */
  predicate Stopped(w: Write, done: Text, next: seq<Text>, room: nat)
  {
    || (w == Write(done, PastEnd) && |done| == room && (next != [] ==> |next[0]| < 64))
    || (next != [] && |next[0]| >= 64 && w == Write(done, Refused))
    || (next != [] && |next[0]| < 64 && w == Write(done + [|next[0]|], Refused) && |done| < room <= |done| + |next[0]|)
  }

  lemma StoppedLater(w: Write, done: Text, next: seq<Text>, room: nat, first: Text)
    requires Stopped(w, done, next, room)
    ensures Stopped(After(first, w), first + done, next, |first| + room)
  {
    if next != [] && |next[0]| < 64 {
      Regroup(first, done, [|next[0]|]);
    }
  }

  /** Labels without an empty one that are not written in full: the first `k` are, and there writing stops. */
  lemma {:induction false} StopsWriting(labels: seq<Text>, room: nat) returns (k: nat)
    requires NoEmptyLabel(labels) && PutLabels(labels, room).status != Done
    ensures k <= |labels| && LabelsOk(labels[..k]) && AnyLabels(labels[..k])
    ensures Stopped(PutLabels(labels, room), Raw(labels[..k]), labels[k..], room)
    decreases |labels|
  {
    hide PutLabels, PutLabel, Raw, NoEmptyLabel, AnyLabels, LabelsOk, Stopped;
    if labels == [] || PutLabel(labels[0], room).status != Done {
      k := 0;
      StopsHere(labels, room);
    } else {
      NoEmptyRest(labels);
      WritesOn(labels, room);
      var j := StopsWriting(labels[1..], room - 1 - |labels[0]|);
      k := j + 1;
      StopsFurther(labels, room, j);
    }
  }

  lemma StopsHere(labels: seq<Text>, room: nat)
    requires labels == [] || PutLabel(labels[0], room).status != Done
    requires PutLabels(labels, room).status != Done
    ensures LabelsOk(labels[..0]) && AnyLabels(labels[..0])
    ensures Stopped(PutLabels(labels, room), Raw(labels[..0]), labels[0..], room)
  {
    assert labels[..0] == [] && labels[0..] == labels;
  }

  lemma StopsFurther(labels: seq<Text>, room: nat, j: nat)
    requires labels != [] && labels[0] != [] && PutLabel(labels[0], room).status == Done
    requires 1 + |labels[0]| <= room && j <= |labels| - 1
    requires LabelsOk(labels[1..][..j]) && AnyLabels(labels[1..][..j])
    requires
      var left := room - 1 - |labels[0]|;
      Stopped(PutLabels(labels[1..], left), Raw(labels[1..][..j]), labels[1..][j..], left)
    ensures LabelsOk(labels[..j + 1]) && AnyLabels(labels[..j + 1])
    ensures Stopped(PutLabels(labels, room), Raw(labels[..j + 1]), labels[j + 1..], room)
  {
    WritesOn(labels, room);
    hide PutLabels, PutLabel, Raw, AnyLabels, LabelsOk, Stopped, After;
    var first, rest, left := labels[0], labels[1..], room - 1 - |labels[0]|;
    StopsLater(first, rest, j);
    StoppedLater(PutLabels(rest, left), Raw(rest[..j]), rest[j..], left, [|first|] + first);
    assert labels == [first] + rest;
    assert labels[j + 1..] == rest[j..];
  }

  lemma NoEmptyRest(labels: seq<Text>)
    requires NoEmptyLabel(labels) && labels != []
    ensures NoEmptyLabel(labels[1..]) && labels[0] != []
  {
    assert labels[0] in labels;
    assert forall l | l in labels[1..] :: l in labels;
  }

  lemma WritesOn(labels: seq<Text>, room: nat)
    requires labels != [] && labels[0] != [] && PutLabel(labels[0], room).status == Done
    ensures 1 + |labels[0]| <= room && |labels[0]| <= MAX_LABEL
    ensures
      PutLabels(labels, room) ==
      After([|labels[0]|] + labels[0], PutLabels(labels[1..], room - 1 - |labels[0]|))
  {
  }

  lemma StopsLater(first: Text, rest: seq<Text>, j: nat)
    requires 1 <= |first| <= MAX_LABEL && j <= |rest| && LabelsOk(rest[..j]) && AnyLabels(rest[..j])
    ensures
      var labels := [first] + rest;
      && LabelsOk(labels[..j + 1]) && AnyLabels(labels[..j + 1])
      && Raw(labels[..j + 1]) == [|first|] + first + Raw(rest[..j])
  {
    RawStep(first, rest[..j]);
    assert ([first] + rest)[..j + 1] == [first] + rest[..j];
  }
}
