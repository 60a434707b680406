/**
  DNS questions and messages on the wire (sections 4.1.1 and 4.1.2 of RFC 1035): a header of six
  16-bit numbers, then the questions. Resource records are left out; parsing is followed up to them.
*/
module DnsMessage {
  import opened Bytes
  import opened DnsName

  datatype Question = Question(qname: Text, qtype: nat, qclass: nat)

  datatype Header = Header(id: nat, fields: nat, qdCount: nat, anCount: nat, nsCount: nat, arCount: nat)

  /** A message without resource records. */
  datatype Message = Message(id: nat, fields: nat, questions: seq<Question>)

  /** `put_uint16`, once for each number. */
  function PutNumbers(numbers: seq<nat>, room: nat): (w: Write)
    ensures |w.bytes| <= room
  {
    if numbers == [] then Write([], Done)
    else if room < 2 then Write([], Refused)
    else After(BigEndian(numbers[0], 2), PutNumbers(numbers[1..], room - 2))
  }

  function Then(w: Write, next: Write): Write
  {
    if w.status == Done then After(w.bytes, next) else w
  }

  function EncodeQuestion(q: Question, room: nat): (w: Write)
    ensures |w.bytes| <= room
  {
    var name := EncodeName(q.qname, room);
    Then(name, PutNumbers([q.qtype, q.qclass], room - |name.bytes|))
  }

  function EncodeQuestions(questions: seq<Question>, room: nat): (w: Write)
    ensures |w.bytes| <= room
  {
    if questions == [] then Write([], Done)
    else
      var first := EncodeQuestion(questions[0], room);
      Then(first, EncodeQuestions(questions[1..], room - |first.bytes|))
  }

  /** The count is cut to 16 bits. */
  function HeaderOf(m: Message): Header
  {
    Header(m.id, m.fields, |m.questions| % U16_SIZE, 0, 0, 0)
  }

  function Numbers(h: Header): seq<nat>
  {
    [h.id, h.fields, h.qdCount, h.anCount, h.nsCount, h.arCount]
  }

  function EncodeMessage(m: Message, room: nat): (w: Write)
    ensures |w.bytes| <= room
  {
    var header := PutNumbers(Numbers(HeaderOf(m)), room);
    Then(header, EncodeQuestions(m.questions, room - |header.bytes|))
  }

  // ---------------------------------------------------------------------- decoding

  /** Something read, or why not: the buffer refuses, or the read runs past it; and where the cursor ends up. */
  datatype Got<T> = Got(value: T, used: nat) | Refusal(used: nat) | Overrun(used: nat)

  predicate Gives<T(==)>(r: Got<T>, value: T, used: nat)
  {
    r.Got? && r.value == value && r.used == used
  }

  /** `read_uint16`, so many times. */
  function GetNumbers(data: Text, count: nat): (r: Got<seq<nat>>)
    ensures r.used <= |data| && (r.Got? ==> r.used == 2 * count && |r.value| == count)
    decreases count
  {
    if count == 0 then Got([], 0)
    else if |data| < 2 then Refusal(0)
    else
      match GetNumbers(data[2..], count - 1)
      case Got(rest, used) => Got([FromBigEndian(data[..2])] + rest, 2 + used)
      case Refusal(used) => Refusal(2 + used)
      case Overrun(used) => Overrun(2 + used)
  }

  function DecodeQuestion(data: Text): (r: Got<Question>)
    ensures r.used <= |data|
  {
    var name := DecodeName(data, false);
    match name
    case Malformed(used) => Refusal(used)
    case Name(_, used) =>
      (match GetNumbers(data[used..], 2)
       case Got(numbers, more) => Got(Question(name.name, numbers[0], numbers[1]), used + more)
       case Refusal(more) => Refusal(used + more)
       case Overrun(more) => Overrun(used + more))
    case _ => Overrun(name.used)
  }

  function DecodeQuestions(data: Text, count: nat): (r: Got<seq<Question>>)
    ensures r.used <= |data| && (r.Got? ==> |r.value| == count)
    decreases count
  {
    if count == 0 then Got([], 0)
    else
      match DecodeQuestion(data)
      case Got(q, used) =>
        (match DecodeQuestions(data[used..], count - 1)
         case Got(rest, more) => Got([q] + rest, used + more)
         case Refusal(more) => Refusal(used + more)
         case Overrun(more) => Overrun(used + more))
      case Refusal(used) => Refusal(used)
      case Overrun(used) => Overrun(used)
  }

  /** `MaybeParseDNSMessage` up to the answers, which come next if the header announces any. */
  function ParseMessage(data: Text): (r: Got<(Header, seq<Question>)>)
    ensures r.used <= |data|
  {
    match GetNumbers(data, 6)
    case Got(n, used) =>
      (var header := Header(n[0], n[1], n[2], n[3], n[4], n[5]);
       match DecodeQuestions(data[used..], header.qdCount)
       case Got(questions, more) => Got((header, questions), used + more)
       case Refusal(more) => Refusal(used + more)
       case Overrun(more) => Overrun(used + more))
    case Refusal(used) => Refusal(used)
    case Overrun(used) => Overrun(used)
  }

  // -------------------------------------------------------------------- round trips

  predicate NumbersOk(numbers: seq<nat>)
  {
    forall i | 0 <= i < |numbers| :: numbers[i] < U16_SIZE
  }

  /** Type and class are 16-bit numbers. */
  predicate InRange(q: Question)
  {
    q.qtype < U16_SIZE && q.qclass < U16_SIZE
  }

  predicate AllInRange(questions: seq<Question>)
  {
    forall q | q in questions :: InRange(q)
  }

  predicate NameOk(q: Question)
  {
    NoEmptyLabel(Split(StripDot(q.qname)))
  }

  /** Every question's name has no empty label. */
  predicate NamesOk(questions: seq<Question>)
  {
    forall q | q in questions :: NameOk(q)
  }

  function CanonicalQuestion(q: Question): Question
  {
    q.(qname := Canonical(q.qname))
  }

  function CanonicalQuestions(questions: seq<Question>): (r: seq<Question>)
    ensures |r| == |questions|
  {
    if questions == [] then [] else [CanonicalQuestion(questions[0])] + CanonicalQuestions(questions[1..])
  }

  lemma NumberRoundTrip(n: nat, rest: Text)
    requires n < U16_SIZE
    ensures
      var data := BigEndian(n, 2) + rest;
      FromBigEndian(data[..2]) == n && data[2..] == rest
  {
    U16RoundTrip(n);
    assert (BigEndian(n, 2) + rest)[..2] == BigEndian(n, 2);
  }

  lemma {:induction false} NumbersRoundTrip(numbers: seq<nat>, room: nat, rest: Text)
    requires NumbersOk(numbers)
    ensures PutNumbers(numbers, room).status == Done <==> 2 * |numbers| <= room
    ensures
      var w := PutNumbers(numbers, room);
      w.status == Done ==>
        |w.bytes| == 2 * |numbers| && Gives(GetNumbers(w.bytes + rest, |numbers|), numbers, 2 * |numbers|)
  {
    if numbers != [] && room >= 2 {
      hide BigEndian, FromBigEndian;
      var w, more := PutNumbers(numbers, room), PutNumbers(numbers[1..], room - 2);
      NumberRoundTrip(numbers[0], more.bytes + rest);
      NumbersRoundTrip(numbers[1..], room - 2, rest);
      assert w.bytes + rest == BigEndian(numbers[0], 2) + (more.bytes + rest);
      assert [numbers[0]] + numbers[1..] == numbers;
    }
  }

  /**
    An encoded question decodes to itself, with its name fully qualified, if and only if the name has no
    empty label, and then using up exactly the bytes written.
  */
  lemma QuestionRoundTripExactly(q: Question, room: nat, rest: Text)
    requires InRange(q) && EncodeQuestion(q, room).status == Done
    ensures
      var w := EncodeQuestion(q, room).bytes;
      var r := DecodeQuestion(w + rest);
      && (Gives(r, CanonicalQuestion(q), |w|) <==> NameOk(q))
      && (r.Got? && r.value == CanonicalQuestion(q) ==> NameOk(q))
  {
    hide EncodeName, DecodeName, PutNumbers, GetNumbers, NoEmptyLabel, Split, StripDot;
    var name := EncodeName(q.qname, room);
    var numbers := [q.qtype, q.qclass];
    var more := PutNumbers(numbers, room - |name.bytes|);
    NumbersRoundTrip(numbers, room - |name.bytes|, rest);
    NameRoundTripExactly(q.qname, room, more.bytes + rest);
    var w := EncodeQuestion(q, room).bytes;
    assert w + rest == name.bytes + (more.bytes + rest);
    assert (w + rest)[|name.bytes|..] == more.bytes + rest;
  }

  /** Reading as many of the encoded questions as a count says. */
  lemma {:induction false} QuestionsRoundTrip(questions: seq<Question>, room: nat, rest: Text, count: nat)
    requires AllInRange(questions) && NamesOk(questions)
    requires EncodeQuestions(questions, room).status == Done && count <= |questions|
    ensures
      var w := EncodeQuestions(questions, room).bytes;
      var r := DecodeQuestions(w + rest, count);
      r.Got? && r.value == CanonicalQuestions(questions[..count]) && (count == |questions| ==> r.used == |w|)
    decreases count
  {
    hide InRange, NameOk, EncodeQuestion, DecodeQuestion, CanonicalQuestion;
    if count > 0 {
      var q, w := questions[0], EncodeQuestions(questions, room).bytes;
      assert q in questions;
      var first := EncodeQuestion(q, room).bytes;
      var more := EncodeQuestions(questions[1..], room - |first|).bytes;
      assert w + rest == first + (more + rest);
      QuestionRoundTripExactly(q, room, more + rest);
      QuestionsRoundTrip(questions[1..], room - |first|, rest, count - 1);
      assert (w + rest)[|first|..] == more + rest;
      assert questions[..count][0] == q && questions[..count][1..] == questions[1..][..count - 1];
    }
  }

  /** Questions that come back as they were have names without empty labels. */
  lemma {:induction false} ReadBackIsOk(questions: seq<Question>, room: nat, rest: Text)
    requires AllInRange(questions) && EncodeQuestions(questions, room).status == Done
    requires
      var r := DecodeQuestions(EncodeQuestions(questions, room).bytes + rest, |questions|);
      r.Got? && r.value == CanonicalQuestions(questions)
    ensures NamesOk(questions)
    decreases |questions|
  {
    hide InRange, NameOk, EncodeQuestion, DecodeQuestion, CanonicalQuestion;
    if questions != [] {
      var q, w := questions[0], EncodeQuestions(questions, room).bytes;
      assert q in questions;
      var first := EncodeQuestion(q, room).bytes;
      var more := EncodeQuestions(questions[1..], room - |first|).bytes;
      assert w + rest == first + (more + rest);
      QuestionRoundTripExactly(q, room, more + rest);
      FirstAndRest(q, questions[1..], w + rest);
      assert (w + rest)[|first|..] == more + rest;
      assert [q] + questions[1..] == questions;
      ReadBackIsOk(questions[1..], room - |first|, rest);
    }
  }

  lemma FirstAndRest(q: Question, rest: seq<Question>, data: Text)
    requires ReadsAs(DecodeQuestions(data, 1 + |rest|), CanonicalQuestions([q] + rest))
    ensures
      var first := DecodeQuestion(data);
      && first.Got? && first.value == CanonicalQuestion(q)
      && ReadsAs(DecodeQuestions(data[first.used..], |rest|), CanonicalQuestions(rest))
  {
    hide DecodeQuestion, CanonicalQuestion;
    var all := CanonicalQuestions([q] + rest);
    assert ([q] + rest)[1..] == rest;
    assert all == [CanonicalQuestion(q)] + CanonicalQuestions(rest);
    var first := DecodeQuestion(data);
    assert first.Got?;
    var r := DecodeQuestions(data[first.used..], |rest|);
    assert DecodeQuestions(data, 1 + |rest|).value == [first.value] + r.value;
    assert all[0] == first.value && all[1..] == r.value;
  }

  predicate ReadsAs(r: Got<seq<Question>>, value: seq<Question>)
  {
    r.Got? && r.value == value
  }

  predicate MessageOk(m: Message)
  {
    m.id < U16_SIZE && m.fields < U16_SIZE && AllInRange(m.questions)
  }

  lemma MessageBytes(m: Message, room: nat, rest: Text)
    requires MessageOk(m) && EncodeMessage(m, room).status == Done
    ensures
      && room >= 12
      && var w := EncodeMessage(m, room).bytes;
         var questions := EncodeQuestions(m.questions, room - 12);
         && |w| == 12 + |questions.bytes| && questions.status == Done
         && Gives(GetNumbers(w + rest, 6), Numbers(HeaderOf(m)), 12)
         && (w + rest)[12..] == questions.bytes + rest
  {
    hide PutNumbers, GetNumbers, EncodeQuestions, AllInRange;
    var numbers := Numbers(HeaderOf(m));
    var header := PutNumbers(numbers, room);
    var questions := EncodeQuestions(m.questions, room - |header.bytes|);
    NumbersRoundTrip(numbers, room, questions.bytes + rest);
    var w := EncodeMessage(m, room).bytes;
    assert w + rest == header.bytes + (questions.bytes + rest);
  }

  /**
    An encoded message parses back to its header and to its questions, names fully qualified, and uses up
    exactly the bytes written, if and only if there are fewer than 65536 questions and none has a name
    with an empty label; the count in the header is the number of questions modulo 65536.
  */
  lemma MessageRoundTripExactly(m: Message, room: nat, rest: Text)
    requires MessageOk(m) && EncodeMessage(m, room).status == Done
    ensures
      var w := EncodeMessage(m, room).bytes;
      var header := Header(m.id, m.fields, |m.questions| % 65536, 0, 0, 0);
      Gives(ParseMessage(w + rest), (header, CanonicalQuestions(m.questions)), |w|) <==>
      |m.questions| < 65536 && NamesOk(m.questions)
  {
    hide EncodeMessage, EncodeQuestions, DecodeQuestions, GetNumbers, AllInRange, NamesOk, CanonicalQuestions;
    MessageBytes(m, room, rest);
    var w := EncodeMessage(m, room).bytes;
    var count := |m.questions| % U16_SIZE;
    var read := DecodeQuestions(EncodeQuestions(m.questions, room - 12).bytes + rest, count);
    if |m.questions| < U16_SIZE {
      assert m.questions[..count] == m.questions;
      if NamesOk(m.questions) {
        QuestionsRoundTrip(m.questions, room - 12, rest, count);
      } else if read.Got? && read.value == CanonicalQuestions(m.questions) {
        ReadBackIsOk(m.questions, room - 12, rest);
      }
    } else {
      assert read.Got? ==> |read.value| == count < |CanonicalQuestions(m.questions)|;
    }
  }

  // ------------------------------------------------------------ what any bytes are read as

  /** Numbers are written as far as there is room, and in full if and only if there is room for all. */
  lemma {:induction false} PutNumbersExactly(numbers: seq<nat>, room: nat)
    ensures
      var w := PutNumbers(numbers, room);
      && w.status == (if 2 * |numbers| <= room then Done else Refused)
      && |w.bytes| == (if 2 * |numbers| <= room then 2 * |numbers| else room - room % 2)
  {
    if numbers != [] && room >= 2 {
      PutNumbersExactly(numbers[1..], room - 2);
    }
  }

  /** Numbers are read from any bytes if and only if there are enough; otherwise all whole ones are used up. */
  lemma {:induction false} GetNumbersExactly(data: Text, count: nat)
    ensures
      var r := GetNumbers(data, count);
      if 2 * count <= |data| then
        r.Got? && forall i | 0 <= i < count :: r.value[i] == FromBigEndian(data[2 * i..2 * i + 2])
      else r == Refusal(|data| - |data| % 2)
    decreases count
  {
    if count > 0 && |data| >= 2 {
      GetNumbersExactly(data[2..], count - 1);
      var r := GetNumbers(data, count);
      if 2 * count <= |data| {
        forall i | 0 <= i < count
          ensures r.value[i] == FromBigEndian(data[2 * i..2 * i + 2])
        {
          if i > 0 {
            assert data[2..][2 * (i - 1)..2 * (i - 1) + 2] == data[2 * i..2 * i + 2];
          }
        }
      }
    }
  }

  /** Any bytes are read as a question if and only if they start with a name and four bytes more. */
  lemma QuestionReadsExactly(data: Text)
    ensures
      var name, r := DecodeName(data, false), DecodeQuestion(data);
      && (r.Got? <==> name.Name? && |data| - name.used >= 4)
      && (r.Got? ==>
            && r.value.qname == name.name && r.used == name.used + 4
            && r.value.qtype == FromBigEndian(data[name.used..name.used + 2])
            && r.value.qclass == FromBigEndian(data[name.used + 2..name.used + 4]))
      && (r.Overrun? <==> name.ReadPastEnd?) && (data == [] ==> r == Refusal(0))
  {
    var name := DecodeName(data, false);
    if name.Name? {
      GetNumbersExactly(data[name.used..], 2);
      if |data| - name.used >= 4 {
        assert data[name.used..][0..2] == data[name.used..name.used + 2];
        assert data[name.used..][2..4] == data[name.used + 2..name.used + 4];
      }
      hide GetNumbers;
    }
  }

  /** Any bytes are refused as a message if they are fewer than twelve; otherwise the header is their first twelve. */
  lemma HeaderReadsExactly(data: Text)
    ensures
      var r := ParseMessage(data);
      if |data| < 12 then r == Refusal(|data| - |data| % 2)
      else
        var questions := DecodeQuestions(data[12..], FromBigEndian(data[4..6]));
        && r.used == 12 + questions.used && (r.Got? <==> questions.Got?) && (r.Overrun? <==> questions.Overrun?)
        && (r.Got? ==>
              && r.value.1 == questions.value
              && r.value.0.id == FromBigEndian(data[0..2]) && r.value.0.fields == FromBigEndian(data[2..4])
              && r.value.0.qdCount == FromBigEndian(data[4..6]) && r.value.0.anCount == FromBigEndian(data[6..8])
              && r.value.0.nsCount == FromBigEndian(data[8..10]) && r.value.0.arCount == FromBigEndian(data[10..12]))
  {
    GetNumbersExactly(data, 6);
    hide DecodeQuestions;
  }
}
