/** Questions and messages on the buffer of `DnsCodec`, proved against `DnsMessage`. */
module DnsMessageCodec {
  import opened Bytes
  import opened DnsName
  import opened DnsMessage
  import opened DnsCodec

  // ----------------------------------------------------------------------- encoding

  lemma PutNumbersStep(numbers: seq<nat>, k: nat, room: nat)
    requires k < |numbers|
    ensures
      PutNumbers(numbers[k..], room) ==
      if room < 2 then Write([], Refused) else After(BigEndian(numbers[k], 2), PutNumbers(numbers[k + 1..], room - 2))
  {
    assert numbers[k..][1..] == numbers[k + 1..];
  }

  /** The `k`th number of a longer encoding `w` that was begun at `start`. */
  method PutNumber(buf: Buffer, n: nat, ghost numbers: seq<nat>, ghost k: nat, ghost start: Cursor, ghost w: Write)
    returns (ok: bool)
    requires buf.Valid() && k < |numbers| && n == numbers[k]
    requires Tracks(start, buf.View(), w, PutNumbers(numbers[k..], buf.SizeLeft()))
    modifies buf`cur, buf.data
    ensures buf.Valid()
    ensures ok ==> Tracks(start, buf.View(), w, PutNumbers(numbers[k + 1..], buf.SizeLeft()))
    ensures !ok ==> Halted(start, buf.View(), w)
  {
    hide PutNumbers, BigEndian;
    ghost var now, room := buf.View(), buf.SizeLeft();
    PutNumbersStep(numbers, k, room);
    AdvanceNone(now);
    ok := buf.PutUint16(n);
    assert buf.SizeLeft() == |buf.View().left|;
    if ok {
      TracksMore(start, now, w, BigEndian(n, 2), PutNumbers(numbers[k + 1..], room - 2));
    }
  }

  /** The encoding stopped because the buffer is full. */
  predicate Halted(start: Cursor, now: Cursor, w: Write)
  {
    w.status == Refused && |w.bytes| <= |start.left| && now == Advance(start, w.bytes)
  }

  lemma NumbersDone(start: Cursor, now: Cursor, w: Write, numbers: seq<nat>, k: nat, room: nat)
    requires k == |numbers| && Tracks(start, now, w, PutNumbers(numbers[k..], room))
    ensures w.status == Done && |w.bytes| <= |start.left| && now == Advance(start, w.bytes)
  {
    AdvanceNone(now);
  }

  method PutHeader(buf: Buffer, h: Header) returns (ok: bool)
    requires buf.Valid()
    modifies buf`cur, buf.data
    ensures buf.Valid()
    ensures
      var w := PutNumbers(Numbers(h), old(buf.SizeLeft()));
      ok == (w.status == Done) && (!ok ==> w.status == Refused) && buf.View() == Advance(old(buf.View()), w.bytes)
  {
    hide PutNumbers, Tracks, Advance;
    ghost var numbers := Numbers(h);
    ghost var start, w := buf.View(), PutNumbers(numbers, buf.SizeLeft());
    assert numbers[0..] == numbers;
    Begun(start, w);
    ok := PutNumber(buf, h.id, numbers, 0, start, w);
    if !ok { return; }
    ok := PutNumber(buf, h.fields, numbers, 1, start, w);
    if !ok { return; }
    ok := PutNumber(buf, h.qdCount, numbers, 2, start, w);
    if !ok { return; }
    ok := PutNumber(buf, h.anCount, numbers, 3, start, w);
    if !ok { return; }
    ok := PutNumber(buf, h.nsCount, numbers, 4, start, w);
    if !ok { return; }
    ok := PutNumber(buf, h.arCount, numbers, 5, start, w);
    if ok {
      NumbersDone(start, buf.View(), w, numbers, 6, buf.SizeLeft());
    }
  }

  lemma Begun(start: Cursor, w: Write)
    requires |w.bytes| <= |start.left|
    ensures Tracks(start, start, w, w)
  {
  }

  /** The numbers of a question, the end of a longer encoding `w`. */
  method PutTypeAndClass(buf: Buffer, q: Question, ghost start: Cursor, ghost w: Write) returns (status: Status)
    requires buf.Valid() && Tracks(start, buf.View(), w, PutNumbers([q.qtype, q.qclass], buf.SizeLeft()))
    modifies buf`cur, buf.data
    ensures buf.Valid() && |w.bytes| <= |start.left|
    ensures status == w.status && buf.View() == Advance(start, w.bytes)
  {
    hide PutNumbers, Tracks, Advance;
    ghost var numbers := [q.qtype, q.qclass];
    assert numbers[0..] == numbers;
    var ok := PutNumber(buf, q.qtype, numbers, 0, start, w);
    if !ok {
      return Refused;
    }
    ok := PutNumber(buf, q.qclass, numbers, 1, start, w);
    if !ok {
      return Refused;
    }
    NumbersDone(start, buf.View(), w, numbers, 2, buf.SizeLeft());
    return Done;
  }

  method EncodeQuestionTo(buf: Buffer, q: Question) returns (status: Status)
    requires buf.Valid()
    modifies buf`cur, buf.data
    ensures buf.Valid()
    ensures
      var w := EncodeQuestion(q, old(buf.SizeLeft()));
      status == w.status && buf.View() == Advance(old(buf.View()), w.bytes)
  {
    hide PutNumbers, EncodeName, Advance, Tracks, After;
    ghost var start, room := buf.View(), buf.SizeLeft();
    ghost var name := EncodeName(q.qname, room);
    status := EncodeNameTo(buf, q.qname);
    if status != Done {
      return;
    }
    RoomAfter(buf, start, name.bytes);
    FirstDone(start, name, PutNumbers([q.qtype, q.qclass], buf.SizeLeft()));
    status := PutTypeAndClass(buf, q, start, EncodeQuestion(q, room));
  }

  lemma FirstDone(start: Cursor, name: Write, next: Write)
    requires name.status == Done && |name.bytes| + |next.bytes| <= |start.left|
    ensures Tracks(start, Advance(start, name.bytes), Then(name, next), next)
  {
    AdvanceTwice(start, name.bytes, next.bytes);
  }

  method PutQuestions(buf: Buffer, questions: seq<Question>, ghost start: Cursor, ghost w: Write)
    returns (status: Status)
    requires buf.Valid() && Tracks(start, buf.View(), w, EncodeQuestions(questions, buf.SizeLeft()))
    modifies buf`cur, buf.data
    ensures buf.Valid() && |w.bytes| <= |start.left|
    ensures status == w.status && buf.View() == Advance(start, w.bytes)
  {
    hide Tracks, Advance, EncodeQuestion, EncodeQuestions, After;
    assert questions[0..] == questions;
    var n := 0;
    while n < |questions|
      invariant 0 <= n <= |questions| && buf.Valid()
      invariant Tracks(start, buf.View(), w, EncodeQuestions(questions[n..], buf.SizeLeft()))
    {
      ghost var now, left := buf.View(), buf.SizeLeft();
      ghost var first := EncodeQuestion(questions[n], left);
      QuestionsStep(questions, n, left);
      status := EncodeQuestionTo(buf, questions[n]);
      if status != Done {
        Stopped(start, now, w, first);
        return;
      }
      RoomAfter(buf, now, first.bytes);
      TracksMore(start, now, w, first.bytes, EncodeQuestions(questions[n + 1..], left - |first.bytes|));
      n := n + 1;
    }
    Finished(start, buf.View(), w, questions, n, buf.SizeLeft());
    return Done;
  }

  lemma QuestionsStep(questions: seq<Question>, n: nat, room: nat)
    requires n < |questions|
    ensures
      var first := EncodeQuestion(questions[n], room);
      EncodeQuestions(questions[n..], room) ==
        if first.status != Done then first
        else After(first.bytes, EncodeQuestions(questions[n + 1..], room - |first.bytes|))
  {
    hide EncodeQuestion;
    assert questions[n..][1..] == questions[n + 1..];
  }

  method EncodeMessageTo(buf: Buffer, m: Message) returns (status: Status)
    requires buf.Valid()
    modifies buf`cur, buf.data
    ensures buf.Valid()
    ensures
      var w := EncodeMessage(m, old(buf.SizeLeft()));
      status == w.status && buf.View() == Advance(old(buf.View()), w.bytes)
  {
    hide PutNumbers, EncodeQuestions, Numbers, Tracks, Advance, After;
    ghost var start, room := buf.View(), buf.SizeLeft();
    ghost var header := PutNumbers(Numbers(HeaderOf(m)), room);
    var ok := PutHeader(buf, Header(m.id, m.fields, |m.questions| % U16_SIZE, 0, 0, 0));
    if !ok {
      return Refused;
    }
    RoomAfter(buf, start, header.bytes);
    FirstDone(start, header, EncodeQuestions(m.questions, buf.SizeLeft()));
    status := PutQuestions(buf, m.questions, start, EncodeMessage(m, room));
  }

  lemma Stopped(start: Cursor, now: Cursor, w: Write, first: Write)
    requires Tracks(start, now, w, first)
    ensures |w.bytes| <= |start.left| && |first.bytes| <= |now.left|
    ensures w.status == first.status && Advance(now, first.bytes) == Advance(start, w.bytes)
  {
  }

  lemma Finished(start: Cursor, now: Cursor, w: Write, questions: seq<Question>, n: nat, room: nat)
    requires n == |questions| && Tracks(start, now, w, EncodeQuestions(questions[n..], room))
    ensures w.status == Done && |w.bytes| <= |start.left| && now == Advance(start, w.bytes)
  {
    AdvanceNone(now);
  }

  lemma RoomAfter(buf: Buffer, before: Cursor, bytes: Text)
    requires buf.Valid() && |bytes| <= |before.left| && buf.View() == Advance(before, bytes)
    ensures buf.SizeLeft() == |before.left| - |bytes|
  {
    assert buf.SizeLeft() == |buf.View().left|;
  }

  // ----------------------------------------------------------------------- decoding

  /** What is known after some numbers were read. */
  function ResumedNumbers(got: seq<nat>, used: nat, r: Got<seq<nat>>): Got<seq<nat>>
  {
    match r
    case Got(value, more) => Got(got + value, used + more)
    case Refusal(more) => Refusal(used + more)
    case Overrun(more) => Overrun(used + more)
  }

  lemma ResumeNumber(got: seq<nat>, used: nat, data: Text, count: nat)
    requires count > 0
    ensures
      ResumedNumbers(got, used, GetNumbers(data, count)) ==
      if |data| < 2 then Refusal(used)
      else ResumedNumbers(got + [FromBigEndian(data[..2])], used + 2, GetNumbers(data[2..], count - 1))
  {
    if |data| >= 2 && GetNumbers(data[2..], count - 1).Got? {
      var n, rest := FromBigEndian(data[..2]), GetNumbers(data[2..], count - 1).value;
      assert got + ([n] + rest) == got + [n] + rest;
    }
  }

  /** The next number of a longer read `all` that was begun at `start`. */
  method ReadNumber(buf: Buffer, ghost all: Got<seq<nat>>, ghost start: nat, ghost got: seq<nat>, ghost count: nat)
    returns (ok: bool, n: nat)
    requires buf.Valid() && start <= buf.cur && count > 0
    requires all == ResumedNumbers(got, buf.cur - start, GetNumbers(buf.View().left, count))
    modifies buf`cur
    ensures buf.Valid() && start <= buf.cur
    ensures ok ==> all == ResumedNumbers(got + [n], buf.cur - start, GetNumbers(buf.View().left, count - 1))
    ensures !ok ==> all == Refusal(buf.cur - start)
  {
    hide GetNumbers, ResumedNumbers, FromBigEndian;
    ghost var data := buf.View().left;
    ResumeNumber(got, buf.cur - start, data, count);
    ok, n := buf.ReadUint16();
    if ok {
      assert buf.View().left == data[2..];
    }
  }

  lemma NumbersRead(got: seq<nat>, used: nat, data: Text)
    ensures ResumedNumbers(got, used, GetNumbers(data, 0)) == Got(got, used)
  {
    assert got + [] == got;
  }

  lemma NumbersBegin(r: Got<seq<nat>>)
    ensures ResumedNumbers([], 0, r) == r
  {
    if r.Got? {
      assert [] + r.value == r.value;
    }
  }

  method ReadTypeAndClass(buf: Buffer) returns (ok: bool, qtype: nat, qclass: nat)
    requires buf.Valid()
    modifies buf`cur
    ensures buf.Valid()
    ensures
      match GetNumbers(old(buf.View()).left, 2)
      case Got(numbers, used) => ok && numbers == [qtype, qclass] && buf.cur == old(buf.cur) + used
      case Refusal(used) => !ok && buf.cur == old(buf.cur) + used
      case Overrun(_) => false
  {
    hide GetNumbers, ResumedNumbers;
    ghost var start, all := buf.cur, GetNumbers(buf.View().left, 2);
    NumbersBegin(all);
    qclass := 0;
    ok, qtype := ReadNumber(buf, all, start, [], 2);
    if !ok { return; }
    ok, qclass := ReadNumber(buf, all, start, [] + [qtype], 1);
    if !ok { return; }
    NumbersRead([] + [qtype] + [qclass], buf.cur - start, buf.View().left);
  }

  method DecodeQuestionFrom(buf: Buffer) returns (status: Status, q: Question)
    requires buf.Valid()
    modifies buf`cur
    ensures buf.Valid()
    ensures
      match DecodeQuestion(old(buf.View()).left)
      case Got(value, used) => status == Done && q == value && buf.cur == old(buf.cur) + used
      case Refusal(used) => status == Refused && buf.cur == old(buf.cur) + used
      case Overrun(used) => status == PastEnd && buf.cur == old(buf.cur) + used
  {
    hide DecodeName, GetNumbers;
    ghost var data := buf.View().left;
    var name;
    q := Question([], 0, 0);
    status, name := DecodeNameFrom(buf, false);
    if status != Done {
      return;
    }
    ghost var rest := buf.View().left;
    assert rest == data[DecodeName(data, false).used..];
    NoOverrun(rest, 2);
    var ok, qtype, qclass := ReadTypeAndClass(buf);
    if !ok {
      return Refused, q;
    }
    return Done, Question(name, qtype, qclass);
  }

  method DecodeHeader(buf: Buffer) returns (ok: bool, h: Header)
    requires buf.Valid()
    modifies buf`cur
    ensures buf.Valid()
    ensures
      match GetNumbers(old(buf.View()).left, 6)
      case Got(numbers, used) => ok && Numbers(h) == numbers && buf.cur == old(buf.cur) + used
      case Refusal(used) => !ok && buf.cur == old(buf.cur) + used
      case Overrun(_) => false
  {
    hide GetNumbers, ResumedNumbers;
    ghost var start, all := buf.cur, GetNumbers(buf.View().left, 6);
    NumbersBegin(all);
    h := Header(0, 0, 0, 0, 0, 0);
    var id, fields, qd, an, ns, ar;
    ok, id := ReadNumber(buf, all, start, [], 6);
    if !ok { return; }
    ok, fields := ReadNumber(buf, all, start, [] + [id], 5);
    if !ok { return; }
    ok, qd := ReadNumber(buf, all, start, [] + [id] + [fields], 4);
    if !ok { return; }
    ok, an := ReadNumber(buf, all, start, [] + [id] + [fields] + [qd], 3);
    if !ok { return; }
    ok, ns := ReadNumber(buf, all, start, [] + [id] + [fields] + [qd] + [an], 2);
    if !ok { return; }
    ok, ar := ReadNumber(buf, all, start, [] + [id] + [fields] + [qd] + [an] + [ns], 1);
    if !ok { return; }
    NumbersRead([] + [id] + [fields] + [qd] + [an] + [ns] + [ar], buf.cur - start, buf.View().left);
    return true, Header(id, fields, qd, an, ns, ar);
  }

  /** What is known after some questions were read. */
  function ResumedQuestions(got: seq<Question>, used: nat, r: Got<seq<Question>>): Got<seq<Question>>
  {
    match r
    case Got(value, more) => Got(got + value, used + more)
    case Refusal(more) => Refusal(used + more)
    case Overrun(more) => Overrun(used + more)
  }

  lemma ResumeQuestion(got: seq<Question>, used: nat, data: Text, count: nat)
    requires count > 0
    ensures
      var all := ResumedQuestions(got, used, DecodeQuestions(data, count));
      match DecodeQuestion(data)
      case Got(q, more) => all == ResumedQuestions(got + [q], used + more, DecodeQuestions(data[more..], count - 1))
      case Refusal(more) => all == Refusal(used + more)
      case Overrun(more) => all == Overrun(used + more)
  {
    hide DecodeQuestion;
    var first := DecodeQuestion(data);
    if first.Got? && DecodeQuestions(data[first.used..], count - 1).Got? {
      var rest := DecodeQuestions(data[first.used..], count - 1).value;
      assert got + ([first.value] + rest) == got + [first.value] + rest;
    }
  }

  lemma QuestionsRead(got: seq<Question>, used: nat, data: Text)
    ensures ResumedQuestions(got, used, DecodeQuestions(data, 0)) == Got(got, used)
  {
    assert got + [] == got;
  }

  lemma QuestionsBegin(r: Got<seq<Question>>)
    ensures ResumedQuestions([], 0, r) == r
  {
    if r.Got? {
      assert [] + r.value == r.value;
    }
  }

  method DecodeQuestionsFrom(buf: Buffer, count: nat) returns (status: Status, questions: seq<Question>)
    requires buf.Valid()
    modifies buf`cur
    ensures buf.Valid()
    ensures
      match DecodeQuestions(old(buf.View()).left, count)
      case Got(value, used) => status == Done && questions == value && buf.cur == old(buf.cur) + used
      case Refusal(used) => status == Refused && buf.cur == old(buf.cur) + used
      case Overrun(used) => status == PastEnd && buf.cur == old(buf.cur) + used
  {
    hide DecodeQuestion, DecodeQuestions, ResumedQuestions;
    ghost var start, all := buf.cur, DecodeQuestions(buf.View().left, count);
    questions := [];
    QuestionsBegin(all);
    var n := 0;
    while n < count
      invariant 0 <= n <= count && buf.Valid() && start <= buf.cur
      invariant all == ResumedQuestions(questions, buf.cur - start, DecodeQuestions(buf.View().left, count - n))
    {
      ghost var data := buf.View().left;
      ResumeQuestion(questions, buf.cur - start, data, count - n);
      var q;
      status, q := DecodeQuestionFrom(buf);
      if status != Done {
        return;
      }
      assert buf.View().left == data[DecodeQuestion(data).used..];
      questions := questions + [q];
      n := n + 1;
    }
    QuestionsRead(questions, buf.cur - start, buf.View().left);
    return Done, questions;
  }

  /** `MaybeParseDNSMessage`, up to the answers. */
  method MaybeParseMessage(buf: Buffer) returns (status: Status, h: Header, questions: seq<Question>)
    requires buf.Valid()
    modifies buf`cur
    ensures buf.Valid()
    ensures
      match ParseMessage(old(buf.View()).left)
      case Got(value, used) => status == Done && (h, questions) == value && buf.cur == old(buf.cur) + used
      case Refusal(used) => status == Refused && buf.cur == old(buf.cur) + used
      case Overrun(used) => status == PastEnd && buf.cur == old(buf.cur) + used
  {
    hide GetNumbers, DecodeQuestions;
    ghost var data := buf.View().left;
    NoOverrun(data, 6);
    var ok;
    ok, h := DecodeHeader(buf);
    if !ok {
      return Refused, h, [];
    }
    assert buf.View().left == data[GetNumbers(data, 6).used..];
    status, questions := DecodeQuestionsFrom(buf, h.qdCount);
  }

  lemma {:induction false} NoOverrun(data: Text, count: nat)
    ensures !GetNumbers(data, count).Overrun?
    decreases count
  {
    if count > 0 && |data| >= 2 {
      NoOverrun(data[2..], count - 1);
    }
  }
}
