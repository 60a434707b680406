/** DNS names on a fixed buffer with a cursor, proved against `DnsName`. */
module DnsCodec {
  import opened Bytes
  import opened DnsName

  datatype Cursor = Cursor(passed: Text, left: Text)

  function Advance(v: Cursor, bytes: Text): Cursor
    requires |bytes| <= |v.left|
  {
    Cursor(v.passed + bytes, v.left[|bytes|..])
  }

  lemma AdvanceTwice(v: Cursor, a: Text, b: Text)
    requires |a| + |b| <= |v.left|
    ensures Advance(Advance(v, a), b) == Advance(v, a + b)
  {
    assert v.passed + a + b == v.passed + (a + b);
  }

  lemma AdvanceNone(v: Cursor)
    ensures Advance(v, []) == v
  {
  }

  /** Of the encoding `w`, begun at `start`, what comes before `next` is written. */
  predicate Tracks(start: Cursor, now: Cursor, w: Write, next: Write)
  {
    && |w.bytes| <= |start.left| && |next.bytes| <= |now.left|
    && Advance(now, next.bytes) == Advance(start, w.bytes) && w.status == next.status
  }

  lemma TracksMore(start: Cursor, now: Cursor, w: Write, bytes: Text, next: Write)
    requires Tracks(start, now, w, After(bytes, next))
    ensures Tracks(start, Advance(now, bytes), w, next)
  {
    AdvanceTwice(now, bytes, next.bytes);
  }

  /** `llarp_buffer_t`: the bytes before the cursor are written or read, those after it are left. */
  class Buffer {
    const data: array<byte>
    var cur: nat

    ghost predicate Valid()
      reads this
    {
      cur <= data.Length
    }

    ghost function View(): Cursor
      requires Valid()
      reads this, data
    {
      Cursor(data[..cur], data[cur..])
    }

    function SizeLeft(): (n: nat)
      requires Valid()
      reads this
      ensures n == data.Length - cur
    {
      data.Length - cur
    }

    constructor (data: array<byte>)
      ensures Valid() && this.data == data && cur == 0
    {
      this.data, cur := data, 0;
    }

    method PutByte(b: byte)
      requires Valid() && SizeLeft() > 0
      modifies this`cur, data
      ensures Valid() && View() == Advance(old(View()), [b])
    {
      data[cur] := b;
      cur := cur + 1;
    }

    method PutBytes(bytes: Text)
      requires Valid() && SizeLeft() >= |bytes|
      modifies this`cur, data
      ensures Valid() && View() == Advance(old(View()), bytes)
    {
      AdvanceNone(View());
      var n := 0;
      while n < |bytes|
        invariant 0 <= n <= |bytes| && Valid() && SizeLeft() >= |bytes| - n
        invariant View() == Advance(old(View()), bytes[..n])
      {
        AdvanceTwice(old(View()), bytes[..n], [bytes[n]]);
        PutByte(bytes[n]);
        assert SizeLeft() == |View().left|;
        assert bytes[..n + 1] == bytes[..n] + [bytes[n]];
        n := n + 1;
      }
      assert bytes[..n] == bytes;
    }

    method PutUint16(n: nat) returns (ok: bool)
      requires Valid()
      modifies this`cur, data
      ensures Valid() && ok == (old(SizeLeft()) >= 2)
      ensures View() == if ok then Advance(old(View()), BigEndian(n, 2)) else old(View())
    {
      if SizeLeft() < 2 {
        return false;
      }
      PutBytes(BigEndian(n, 2));
      return true;
    }

    method ReadByte() returns (b: byte)
      requires Valid() && SizeLeft() > 0
      modifies this`cur
      ensures Valid() && cur == old(cur) + 1
      ensures b == old(View()).left[0] && View().left == old(View()).left[1..]
    {
      b := data[cur];
      cur := cur + 1;
    }

    method ReadBytes(n: nat) returns (bytes: Text)
      requires Valid() && SizeLeft() >= n
      modifies this`cur
      ensures Valid() && cur == old(cur) + n
      ensures bytes == old(View()).left[..n] && View().left == old(View()).left[n..]
    {
      bytes := data[cur..cur + n];
      cur := cur + n;
    }

    method ReadUint16() returns (ok: bool, n: nat)
      requires Valid()
      modifies this`cur
      ensures Valid() && ok == (old(SizeLeft()) >= 2)
      ensures if ok then n == FromBigEndian(old(View()).left[..2]) && cur == old(cur) + 2 else cur == old(cur)
    {
      if SizeLeft() < 2 {
        return false, 0;
      }
      n := FromBigEndian(data[cur..cur + 2]);
      assert data[cur..][..2] == data[cur..cur + 2];
      cur := cur + 2;
      ok := true;
    }
  }

  method SplitName(name: Text) returns (labels: seq<Text>)
    ensures labels == Split(name)
  {
    labels := [];
    var str := name;
    var pos := FindDot(str);
    while pos < |str|
      invariant pos == DotAt(str) && labels + Split(str) == Split(name)
      decreases |str|
    {
      ghost var rest := Split(str[pos + 1..]);
      assert Split(str) == [str[..pos]] + rest;
      assert labels + ([str[..pos]] + rest) == labels + [str[..pos]] + rest;
      labels := labels + [str[..pos]];
      str := str[pos + 1..];
      pos := FindDot(str);
    }
    assert str[..pos] == str && Split(str) == [str];
    labels := labels + [str];
  }

  method FindDot(s: Text) returns (n: nat)
    ensures n == DotAt(s)
  {
    n := 0;
    while n < |s| && s[n] != DOT
      invariant n <= |s| && n + DotAt(s[n..]) == DotAt(s)
    {
      n := n + 1;
    }
  }

  method PutLabelTo(buf: Buffer, part: Text) returns (status: Status)
    requires buf.Valid()
    modifies buf`cur, buf.data
    ensures buf.Valid()
    ensures
      var w := PutLabel(part, old(buf.SizeLeft()));
      && status == w.status && buf.View() == Advance(old(buf.View()), w.bytes)
      && buf.SizeLeft() == old(buf.SizeLeft()) - |w.bytes|
  {
    var l := |part|;
    if l > 63 {
      AdvanceNone(buf.View());
      return Refused;
    }
    if buf.SizeLeft() == 0 {
      AdvanceNone(buf.View());
      return PastEnd;
    }
    buf.PutByte(l);
    assert buf.SizeLeft() == |buf.View().left|;
    if buf.SizeLeft() < l {
      return Refused;
    }
    AdvanceTwice(old(buf.View()), [l], part);
    buf.PutBytes(part);
    assert buf.SizeLeft() == |buf.View().left|;
    return Done;
  }

  method PutZeroTo(buf: Buffer) returns (status: Status)
    requires buf.Valid()
    modifies buf`cur, buf.data
    ensures buf.Valid()
    ensures
      var w := PutZero(old(buf.SizeLeft()));
      status == w.status && buf.View() == Advance(old(buf.View()), w.bytes)
  {
    if buf.SizeLeft() == 0 {
      AdvanceNone(buf.View());
      return PastEnd;
    }
    buf.PutByte(0);
    return Done;
  }

  method PutLabelsTo(buf: Buffer, labels: seq<Text>) returns (status: Status)
    requires buf.Valid()
    modifies buf`cur, buf.data
    ensures buf.Valid()
    ensures
      var w := PutLabels(labels, old(buf.SizeLeft()));
      status == w.status && buf.View() == Advance(old(buf.View()), w.bytes)
  {
    hide PutLabel, Advance, After;
    ghost var start, w := buf.View(), PutLabels(labels, buf.SizeLeft());
    ghost var next := w;
    var n := 0;
    while n < |labels|
      invariant 0 <= n <= |labels| && buf.Valid()
      invariant next == PutLabels(labels[n..], buf.SizeLeft()) && Tracks(start, buf.View(), w, next)
    {
      ghost var now := buf.View();
      ghost var first := PutLabel(labels[n], buf.SizeLeft());
      assert labels[n..][1..] == labels[n + 1..];
      status := PutLabelTo(buf, labels[n]);
      if status != Done {
        return;
      }
      next := if labels[n] == [] then PutZero(buf.SizeLeft()) else PutLabels(labels[n + 1..], buf.SizeLeft());
      TracksMore(start, now, w, first.bytes, next);
      if |labels[n]| == 0 {
        break;
      }
      n := n + 1;
    }
    assert next == PutZero(buf.SizeLeft());
    status := PutZeroTo(buf);
  }

  method EncodeNameTo(buf: Buffer, name: Text) returns (status: Status)
    requires buf.Valid()
    modifies buf`cur, buf.data
    ensures buf.Valid()
    ensures
      var w := EncodeName(name, old(buf.SizeLeft()));
      status == w.status && buf.View() == Advance(old(buf.View()), w.bytes)
  {
    hide Split, PutLabels;
    var stripped := name;
    if |name| > 0 && name[|name| - 1] == DOT {
      stripped := name[..|name| - 1];
    }
    var labels := SplitName(stripped);
    status := PutLabelsTo(buf, labels);
  }

  // ----------------------------------------------------------------------- decoding

  /** One round of the loop: the end of the buffer, the closing zero, a label cut short, or a label. */
  lemma ResumeLabel(name: Text, used: nat, data: Text)
    ensures
      var r := Resumed(name, used, GetLabels(data));
      if data == [] then r == ReadPastEnd(used)
      else if data[0] == 0 then r == Name(name, used + 1)
      else if |data| - 1 < data[0] then r == Malformed(used + 1)
      else
        var l: nat := data[0];
        r == Resumed(name + data[1..][..l] + [DOT], used + 1 + l, GetLabels(data[1..][l..]))
  {
    if data != [] && data[0] == 0 {
      assert name + [] == name;
    } else if data != [] && data[0] <= |data| - 1 {
      var l := data[0];
      var r := GetLabels(data[1..][l..]);
      if r.Name? {
        Regroup(name, data[1..][..l] + [DOT], r.name);
        Regroup(name, data[1..][..l], [DOT]);
      }
    }
  }

  lemma ResumedNothing(r: Read)
    ensures Resumed([], 0, r) == r
  {
    if r.Name? {
      assert [] + r.name == r.name;
    }
  }

  /** Says which of the outcomes it was. */
  predicate Reports(status: Status, name: Text, r: Read)
  {
    match r
    case Name(n, _) => status == Done && name == n
    case Malformed(_) => status == Refused
    case ReadPastEnd(_) => status == PastEnd
    case PopsNothing(_) => status == PopsEmpty
  }

  /** The loop of `DecodeName`. */
  method GetLabelsFrom(buf: Buffer) returns (status: Status, name: Text)
    requires buf.Valid()
    modifies buf`cur
    ensures buf.Valid()
    ensures
      var r := GetLabels(old(buf.View()).left);
      Reports(status, name, r) && buf.cur == old(buf.cur) + r.used
  {
    name := [];
    ghost var r, start := GetLabels(buf.View().left), buf.cur;
    ResumedNothing(r);
    hide GetLabels, Resumed;
    while true
      invariant buf.Valid() && start <= buf.cur
      invariant r == Resumed(name, buf.cur - start, GetLabels(buf.View().left))
      decreases buf.SizeLeft()
    {
      ghost var left := buf.View().left;
      ResumeLabel(name, buf.cur - start, left);
      if buf.SizeLeft() == 0 {
        return PastEnd, name;
      }
      var l := buf.ReadByte();
      if l == 0 {
        return Done, name;
      }
      if buf.SizeLeft() < l {
        return Refused, name;
      }
      var part := buf.ReadBytes(l);
      name := name + part + [DOT];
    }
  }

  method DecodeNameFrom(buf: Buffer, trimTrailingDot: bool) returns (status: Status, name: Text)
    requires buf.Valid()
    modifies buf`cur
    ensures buf.Valid()
    ensures
      var r := DecodeName(old(buf.View()).left, trimTrailingDot);
      Reports(status, name, r) && buf.cur == old(buf.cur) + r.used
  {
    hide GetLabels;
    name := [];
    if buf.SizeLeft() < 1 {
      return Refused, name;
    }
    status, name := GetLabelsFrom(buf);
    if status == Done && trimTrailingDot {
      if name == [] {
        return PopsEmpty, name;
      }
      name := name[..|name| - 1];
    }
  }
}
