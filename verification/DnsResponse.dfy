/**
 Parsing a DNS response into its A, AAAA and CNAME records, and the writing of
 responses, with plain or compressed names, that the parsing undoes.
 */
module DnsResponse {
  import opened Text
  import opened Dns

  const TYPE_A: nat := 1
  const TYPE_CNAME: nat := 5
  const TYPE_AAAA: nat := 28

  /** An address as its bytes; its textual form is not modelled. */
  datatype Value = Address(bytes: seq<Byte>) | Alias(name: seq<Byte>)

  datatype Record = Record(rrType: nat, value: Value, ttl: nat)

  datatype Parsed = Parsed(records: seq<Record>, truncated: bool, ok: bool)

  function U16(msg: seq<Byte>, at: nat): (n: nat)
    requires at + 2 <= |msg|
  {
    var high: int := msg[at];
    high * 256 + msg[at + 1]
  }

  function U32(msg: seq<Byte>, at: nat): (n: nat)
    requires at + 4 <= |msg|
  {
    U16(msg, at) * 65536 + U16(msg, at + 2)
  }

  // ----- parsing

  datatype Skip = To(offset: nat) | Failed

  /** Passes over the question section. */
  function Skipped(msg: seq<Byte>, offset: nat, count: nat): (r: Skip)
    decreases count
  {
    if count == 0 then To(offset)
    else
      match DecodedAt(msg, offset)
      case Broken => Failed
      case Decoded(_, next) => Skipped(msg, next + 4, count - 1)
  }

  datatype Answers = Answers(records: seq<Record>, ok: bool)

  /** The record of one answer: none for a type that is not kept or data that does not fit it. */
  function Kept(msg: seq<Byte>, rrType: nat, ttl: nat, start: nat, size: nat): (r: seq<Record>)
    requires start + size <= |msg|
  {
    if (rrType == TYPE_A && size == 4) || (rrType == TYPE_AAAA && size == 16) then
      [Record(rrType, Address(msg[start..start + size]), ttl)]
    else if rrType == TYPE_CNAME then
      match DecodedAt(msg, start)
      case Broken => []
      case Decoded(name, _) => [Record(rrType, Alias(name), ttl)]
    else []
  }

  /** The answer section from `offset`; what was read before an error is kept. */
  function Answered(msg: seq<Byte>, offset: nat, count: nat, records: seq<Record>): (r: Answers)
    decreases count
  {
    if count == 0 || offset >= |msg| then Answers(records, true)
    else
      match DecodedAt(msg, offset)
      case Broken => Answers(records, false)
      case Decoded(_, next) =>
        if next + 10 > |msg| then Answers(records, false)
        else
          var start, size := next + 10, U16(msg, next + 8);
          if start + size > |msg| then Answers(records, false)
          else
            var kept := Kept(msg, U16(msg, next), U32(msg, next + 4), start, size);
            Answered(msg, start + size, count - 1, records + kept)
  }

  function Parse(msg: seq<Byte>, wantID: nat): (r: Parsed)
  {
    if |msg| < 12 || U16(msg, 0) != wantID then Parsed([], false, false)
    else
      var flags := U16(msg, 2);
      var truncated := (flags / 512) % 2 == 1;
      match Skipped(msg, 12, U16(msg, 4))
      case Failed => Parsed([], truncated, false)
      case To(offset) =>
        if flags % 16 != 0 && flags % 16 != 3 then Parsed([], truncated, false)
        else
          var answers := Answered(msg, offset, U16(msg, 6), []);
          Parsed(answers.records, truncated, answers.ok)
  }

  method ParseResponse(msg: seq<Byte>, wantID: nat) returns (r: Parsed)
    ensures r == Parse(msg, wantID)
  {
    if |msg| < 12 || U16(msg, 0) != wantID {
      return Parsed([], false, false);
    }
    var flags := U16(msg, 2);
    var truncated, rcode := (flags / 512) % 2 == 1, flags % 16;
    var qdcount, ancount := U16(msg, 4), U16(msg, 6);
    hide DecodedAt, U16, U32, Kept;
    var offset: nat := 12;
    var i := 0;
    while i < qdcount
      invariant 0 <= i <= qdcount
      invariant Skipped(msg, 12, qdcount) == Skipped(msg, offset, qdcount - i)
    {
      var name := DecodeName(msg, offset);
      if name.Broken? {
        return Parsed([], truncated, false);
      }
      offset := name.end + 4;
      i := i + 1;
    }
    if rcode != 0 && rcode != 3 {
      return Parsed([], truncated, false);
    }
    var answers := ReadAnswers(msg, offset, ancount);
    r := Parsed(answers.records, truncated, answers.ok);
  }

  method ReadAnswers(msg: seq<Byte>, from: nat, ancount: nat) returns (r: Answers)
    ensures r == Answered(msg, from, ancount, [])
  {
    hide DecodedAt, U16, U32;
    var offset: nat := from;
    var records: seq<Record> := [];
    var i := 0;
    while i < ancount
      invariant 0 <= i <= ancount
      invariant Answered(msg, from, ancount, []) == Answered(msg, offset, ancount - i, records)
    {
      if offset >= |msg| {
        break;
      }
      var name := DecodeName(msg, offset);
      if name.Broken? {
        return Answers(records, false);
      }
      var next := name.end;
      if next + 10 > |msg| {
        return Answers(records, false);
      }
      var rrType, ttl, size := U16(msg, next), U32(msg, next + 4), U16(msg, next + 8);
      var start := next + 10;
      if start + size > |msg| {
        return Answers(records, false);
      }
      ghost var before := records;
      if rrType == TYPE_A {
        if size == 4 {
          records := records + [Record(rrType, Address(msg[start..start + size]), ttl)];
        }
      } else if rrType == TYPE_AAAA {
        if size == 16 {
          records := records + [Record(rrType, Address(msg[start..start + size]), ttl)];
        }
      } else if rrType == TYPE_CNAME {
        var target := DecodeName(msg, start);
        if target.Decoded? {
          records := records + [Record(rrType, Alias(target.name), ttl)];
        }
      }
      assert records == before + Kept(msg, rrType, ttl, start, size);
      offset := start + size;
      i := i + 1;
    }
    r := Answers(records, true);
  }

  // ----- writing a response

  function Put16(n: nat): (r: seq<Byte>)
    requires n < 0x1_0000
  {
    [n / 256, n % 256]
  }

  function Put32(n: nat): (r: seq<Byte>)
    requires n < 0x1_0000_0000
  {
    Put16(n / 65536) + Put16(n % 65536)
  }

  /** A name written out, or some labels and a pointer to the rest. */
  datatype Form = Plain(labels: seq<Label>) | Compressed(front: seq<Label>, to: nat)

  predicate FormOk(form: Form)
  {
    match form
    case Plain(labels) => LabelsOk(labels)
    case Compressed(front, to) => LabelsOk(front) && to < 0x4000
  }

  function PutForm(form: Form): (r: seq<Byte>)
    requires FormOk(form)
    ensures |r| >= 1
  {
    match form
    case Plain(labels) => WriteLabels(labels) + [0]
    case Compressed(front, to) => WriteLabels(front) + WritePointer(to)
  }

  /** A pointer leads to a name, with pointers enough left to read it. */
  predicate Grounded(msg: seq<Byte>, form: Form)
  {
    form.Compressed? ==> NameAt(msg, form.to, 1).Labels?
  }

  /** The labels a name stands for in a message. */
  function Meaning(msg: seq<Byte>, form: Form): (r: seq<Label>)
    requires Grounded(msg, form)
  {
    match form
    case Plain(labels) => labels
    case Compressed(front, to) => front + NameAt(msg, to, 1).labels
  }

  datatype Question = Question(name: Form, qtype: nat, qclass: nat)

  datatype Data = Bytes(bytes: seq<Byte>) | Pointer(name: Form)

  datatype Answer = Answer(name: Form, rrType: nat, rrClass: nat, ttl: nat, data: Data)

  predicate QuestionOk(q: Question)
  {
    FormOk(q.name) && q.qtype < 0x1_0000 && q.qclass < 0x1_0000
  }

  function PutData(data: Data): (r: seq<Byte>)
    requires data.Pointer? ==> FormOk(data.name)
  {
    match data
    case Bytes(bytes) => bytes
    case Pointer(name) => PutForm(name)
  }

  /** Addresses have their size, and an alias is a name. */
  predicate AnswerOk(a: Answer)
  {
    && FormOk(a.name) && a.rrType < 0x1_0000 && a.rrClass < 0x1_0000 && a.ttl < 0x1_0000_0000
    && (a.data.Pointer? ==> FormOk(a.data.name)) && |PutData(a.data)| < 0x1_0000
    && (a.rrType == TYPE_A ==> a.data.Bytes? && |a.data.bytes| == 4)
    && (a.rrType == TYPE_AAAA ==> a.data.Bytes? && |a.data.bytes| == 16)
    && (a.rrType == TYPE_CNAME ==> a.data.Pointer?)
  }

  function PutQuestion(q: Question): (r: seq<Byte>)
    requires QuestionOk(q)
  {
    PutForm(q.name) + (Put16(q.qtype) + Put16(q.qclass))
  }

  function PutFixed(a: Answer): (r: seq<Byte>)
    requires AnswerOk(a)
    ensures |r| == 10
  {
    Put16(a.rrType) + (Put16(a.rrClass) + (Put32(a.ttl) + Put16(|PutData(a.data)|)))
  }

  function PutAnswer(a: Answer): (r: seq<Byte>)
    requires AnswerOk(a)
  {
    PutForm(a.name) + (PutFixed(a) + PutData(a.data))
  }

  function PutQuestions(qs: seq<Question>): (r: seq<Byte>)
    requires forall q | q in qs :: QuestionOk(q)
  {
    if qs == [] then [] else PutQuestion(qs[0]) + PutQuestions(qs[1..])
  }

  function PutAnswers(answers: seq<Answer>): (r: seq<Byte>)
    requires forall a | a in answers :: AnswerOk(a)
  {
    if answers == [] then [] else PutAnswer(answers[0]) + PutAnswers(answers[1..])
  }

  datatype Response = Response(id: nat, flags: nat, questions: seq<Question>, answers: seq<Answer>)

  predicate ResponseOk(r: Response)
  {
    && r.id < 0x1_0000 && r.flags < 0x1_0000 && |r.questions| < 0x1_0000 && |r.answers| < 0x1_0000
    && (forall q | q in r.questions :: QuestionOk(q))
    && (forall a | a in r.answers :: AnswerOk(a))
  }

  function PutHeader(r: Response, counts: nat): (bytes: seq<Byte>)
    requires ResponseOk(r) && counts < 0x1_0000_0000
    ensures |bytes| == 12
  {
    Put16(r.id) + (Put16(r.flags) + (Put16(|r.questions|) + (Put16(|r.answers|) + Put32(counts))))
  }

  /** Header, questions and answers; `counts` are the other two section counts, `rest` those sections. */
  function Serialize(r: Response, counts: nat, rest: seq<Byte>): (msg: seq<Byte>)
    requires ResponseOk(r) && counts < 0x1_0000_0000
  {
    PutHeader(r, counts) + (PutQuestions(r.questions) + (PutAnswers(r.answers) + rest))
  }

  /** An answer that is well formed and whose names can be read in the message. */
  predicate Sound(msg: seq<Byte>, a: Answer)
  {
    AnswerOk(a) && Grounded(msg, a.name) && (a.data.Pointer? ==> Grounded(msg, a.data.name))
  }

  predicate AllSound(msg: seq<Byte>, answers: seq<Answer>)
  {
    forall k | 0 <= k < |answers| :: Sound(msg, answers[k])
  }

  /** Every name of the response can be read in its message. */
  predicate GroundedIn(msg: seq<Byte>, r: Response)
  {
    (forall q | q in r.questions :: Grounded(msg, q.name)) && AllSound(msg, r.answers)
  }

  /** What an answer of one of the wanted types says. */
  function Wish(msg: seq<Byte>, a: Answer): (r: seq<Record>)
    requires Sound(msg, a)
  {
    if a.rrType == TYPE_A || a.rrType == TYPE_AAAA then [Record(a.rrType, Address(a.data.bytes), a.ttl)]
    else if a.rrType == TYPE_CNAME then [Record(a.rrType, Alias(Join(Meaning(msg, a.data.name), DOT)), a.ttl)]
    else []
  }

  /** The A, AAAA and CNAME records among the answers, in order. */
  function Wanted(msg: seq<Byte>, answers: seq<Answer>): (r: seq<Record>)
    requires AllSound(msg, answers)
  {
    if answers == [] then [] else Wish(msg, answers[0]) + Wanted(msg, answers[1..])
  }

  // ----- reading back what was written

  lemma {:induction false} Read16(msg: seq<Byte>, at: nat, n: nat)
    requires n < 0x1_0000 && Holds(msg, at, Put16(n))
    ensures at + 2 <= |msg| && U16(msg, at) == n
  {
    var two := msg[at..at + 2];
    assert msg[at] == two[0] && msg[at + 1] == two[1];
  }

  lemma {:induction false} Read32(msg: seq<Byte>, at: nat, n: nat)
    requires n < 0x1_0000_0000 && Holds(msg, at, Put32(n))
    ensures at + 4 <= |msg| && U32(msg, at) == n
  {
    hide Holds, Put16, U16;
    assert |Put16(n / 65536)| == 2 by { Put16Size(n / 65536); }
    HoldsParts(msg, at, Put16(n / 65536), Put16(n % 65536));
    Read16(msg, at, n / 65536);
    Read16(msg, at + 2, n % 65536);
  }

  lemma {:induction false} Put16Size(n: nat)
    requires n < 0x1_0000
    ensures |Put16(n)| == 2
  {
  }

  /** A written name reads as what it stands for, and ends where it was written to. */
  lemma {:induction false} ReadForm(msg: seq<Byte>, pos: nat, form: Form)
    requires FormOk(form) && Grounded(msg, form) && Holds(msg, pos, PutForm(form))
    ensures DecodedAt(msg, pos) == Decoded(Join(Meaning(msg, form), DOT), pos + |PutForm(form)|)
  {
    hide NameAt, ResumeAt, DecodedAt, Join, Holds, Spells, WriteLabels;
    DecodedDef(msg, pos);
    match form
    case Plain(labels) =>
      PlainSpells(msg, pos, labels);
      SpelledIsRead(msg, pos, labels, 0, 0);
    case Compressed(front, to) =>
      var hops := ReadIsSpelled(msg, to, 1);
      CompressedSpells(msg, pos, front, to, NameAt(msg, to, 1).labels, hops);
      SpelledIsRead(msg, pos, Meaning(msg, form), hops + 1, 0);
  }

  lemma {:induction false} SkipQuestions(msg: seq<Byte>, pos: nat, qs: seq<Question>)
    requires forall q | q in qs :: QuestionOk(q) && Grounded(msg, q.name)
    requires Holds(msg, pos, PutQuestions(qs))
    ensures Skipped(msg, pos, |qs|) == To(pos + |PutQuestions(qs)|)
    decreases |qs|
  {
    hide Holds, PutForm, DecodedAt, Grounded, Meaning, FormOk, Join, Put16;
    if qs != [] {
      var q, rest := qs[0], qs[1..];
      HoldsParts(msg, pos, PutQuestion(q), PutQuestions(rest));
      HoldsParts(msg, pos, PutForm(q.name), Put16(q.qtype) + Put16(q.qclass));
      ReadForm(msg, pos, q.name);
      Put16Size(q.qtype);
      Put16Size(q.qclass);
      assert |PutQuestion(q)| == |PutForm(q.name)| + 4;
      SkipQuestions(msg, pos + |PutQuestion(q)|, rest);
    }
  }

  lemma {:induction false} ReadFixed(msg: seq<Byte>, at: nat, a: Answer)
    requires AnswerOk(a) && Holds(msg, at, PutFixed(a))
    ensures at + 10 <= |msg| && U16(msg, at) == a.rrType && U32(msg, at + 4) == a.ttl &&
            U16(msg, at + 8) == |PutData(a.data)|
  {
    hide Holds, Put16, Put32, U16, U32, PutData, FormOk;
    var size := |PutData(a.data)|;
    Put16Size(a.rrType);
    Put16Size(a.rrClass);
    assert |Put32(a.ttl)| == 4 by { Put32Size(a.ttl); }
    HoldsParts(msg, at, Put16(a.rrType), Put16(a.rrClass) + (Put32(a.ttl) + Put16(size)));
    HoldsParts(msg, at + 2, Put16(a.rrClass), Put32(a.ttl) + Put16(size));
    HoldsParts(msg, at + 4, Put32(a.ttl), Put16(size));
    Read16(msg, at, a.rrType);
    Read32(msg, at + 4, a.ttl);
    Read16(msg, at + 8, size);
  }

  lemma {:induction false} Put32Size(n: nat)
    requires n < 0x1_0000_0000
    ensures |Put32(n)| == 4
  {
  }

  /** What is kept of one answer that was written. */
  lemma {:induction false} KeptOne(msg: seq<Byte>, start: nat, a: Answer)
    requires Sound(msg, a) && Holds(msg, start, PutData(a.data))
    ensures start + |PutData(a.data)| <= |msg|
    ensures Kept(msg, a.rrType, a.ttl, start, |PutData(a.data)|) == Wish(msg, a)
  {
    assert start + |PutData(a.data)| <= |msg|;
    assert a.data.Bytes? ==> msg[start..start + |a.data.bytes|] == a.data.bytes;
    hide Holds, DecodedAt, Grounded, FormOk, PutForm, Meaning, Join;
    if a.data.Pointer? {
      ReadForm(msg, start, a.data.name);
    }
  }

  lemma {:induction false} SoundFirst(msg: seq<Byte>, answers: seq<Answer>)
    requires answers != [] && AllSound(msg, answers) && forall a | a in answers :: AnswerOk(a)
    ensures var a, rest := answers[0], answers[1..];
            && Sound(msg, a) && AnswerOk(a) && FormOk(a.name) && Grounded(msg, a.name)
            && (a.data.Pointer? ==> FormOk(a.data.name) && Grounded(msg, a.data.name))
            && AllSound(msg, rest) && (forall b | b in rest :: AnswerOk(b))
            && PutAnswers(answers) == PutForm(a.name) + (PutFixed(a) + PutData(a.data)) + PutAnswers(rest)
            && Wanted(msg, answers) == Wish(msg, a) + Wanted(msg, rest)
  {
    hide FormOk, Grounded, PutForm, PutFixed, PutData, Wish;
  }

  /** One round of the answer loop, on bytes that hold a written answer. */
  lemma {:induction false} AnswerStep(msg: seq<Byte>, pos: nat, a: Answer, count: nat, records: seq<Record>)
    requires Sound(msg, a) && AnswerOk(a) && FormOk(a.name) && Grounded(msg, a.name) && count > 0
    requires a.data.Pointer? ==> FormOk(a.data.name)
    requires Holds(msg, pos, PutForm(a.name) + (PutFixed(a) + PutData(a.data)))
    ensures Answered(msg, pos, count, records)
            == Answered(msg, pos + |PutForm(a.name) + (PutFixed(a) + PutData(a.data))|, count - 1,
              records + Wish(msg, a))
  {
    hide Holds, PutForm, PutData, PutFixed, DecodedAt, Grounded, Meaning, FormOk, Join, AnswerOk, U16, U32, Wish,
         Kept, Sound;
    var afterName := pos + |PutForm(a.name)|;
    HoldsParts(msg, pos, PutForm(a.name), PutFixed(a) + PutData(a.data));
    HoldsParts(msg, afterName, PutFixed(a), PutData(a.data));
    ReadForm(msg, pos, a.name);
    ReadFixed(msg, afterName, a);
    KeptOne(msg, afterName + 10, a);
  }

  lemma {:induction false} ReadNone(msg: seq<Byte>, pos: nat, answers: seq<Answer>, records: seq<Record>)
    requires answers == []
    ensures AllSound(msg, answers) &&
            Answered(msg, pos, |answers|, records) == Answers(records + Wanted(msg, answers), true)
  {
    hide DecodedAt, Kept;
    assert records + [] == records;
  }

  lemma {:induction false} ReadAll(msg: seq<Byte>, pos: nat, answers: seq<Answer>, records: seq<Record>)
    requires AllSound(msg, answers) && forall a | a in answers :: AnswerOk(a)
    requires Holds(msg, pos, PutAnswers(answers))
    ensures Answered(msg, pos, |answers|, records) == Answers(records + Wanted(msg, answers), true)
    decreases |answers|
  {
    hide *;
    if answers == [] {
      ReadNone(msg, pos, answers, records);
    } else {
      SoundFirst(msg, answers);
      var a, rest := answers[0], answers[1..];
      var bytes := PutForm(a.name) + (PutFixed(a) + PutData(a.data));
      HoldsParts(msg, pos, bytes, PutAnswers(rest));
      AnswerStep(msg, pos, a, |answers|, records);
      CatAssoc(records, Wish(msg, a), Wanted(msg, rest));
      ReadAll(msg, pos + |bytes|, rest, records + Wish(msg, a));
    }
  }

  lemma {:induction false} ReadHeader(msg: seq<Byte>, r: Response, counts: nat)
    requires ResponseOk(r) && counts < 0x1_0000_0000
    requires Holds(msg, 0, PutHeader(r, counts))
    ensures |msg| >= 12 && U16(msg, 0) == r.id && U16(msg, 2) == r.flags
    ensures U16(msg, 4) == |r.questions| && U16(msg, 6) == |r.answers|
  {
    hide Holds, Put16, Put32, U16, QuestionOk, AnswerOk;
    var q, a := |r.questions|, |r.answers|;
    Put16Size(r.id);
    Put16Size(r.flags);
    Put16Size(q);
    Put16Size(a);
    HoldsParts(msg, 0, Put16(r.id), Put16(r.flags) + (Put16(q) + (Put16(a) + Put32(counts))));
    HoldsParts(msg, 2, Put16(r.flags), Put16(q) + (Put16(a) + Put32(counts)));
    HoldsParts(msg, 4, Put16(q), Put16(a) + Put32(counts));
    HoldsParts(msg, 6, Put16(a), Put32(counts));
    Read16(msg, 0, r.id);
    Read16(msg, 2, r.flags);
    Read16(msg, 4, q);
    Read16(msg, 6, a);
    Read32(msg, 8, counts);
  }

  /**
   Parsing a well-formed response, whatever follows its answers, returns exactly
   its A, AAAA and CNAME records in order, with their TTLs.
   */
  lemma {:induction false} ParseInvertsSerialize(r: Response, counts: nat, rest: seq<Byte>)
    requires ResponseOk(r) && counts < 0x1_0000_0000 && GroundedIn(Serialize(r, counts, rest), r)
    requires r.flags % 16 == 0 || r.flags % 16 == 3
    ensures var msg := Serialize(r, counts, rest);
            Parse(msg, r.id) == Parsed(Wanted(msg, r.answers), (r.flags / 512) % 2 == 1, true)
  {
    hide *;
    var msg := Serialize(r, counts, rest);
    ResponseParts(msg, r, counts, rest);
    ReadHeader(msg, r, counts);
    SkipQuestions(msg, 12, r.questions);
    var after := 12 + |PutQuestions(r.questions)|;
    ReadAll(msg, after, r.answers, []);
    assert [] + Wanted(msg, r.answers) == Wanted(msg, r.answers);
    ParseSections(msg, r.id, after, Wanted(msg, r.answers));
  }

  lemma {:induction false} ResponseParts(msg: seq<Byte>, r: Response, counts: nat, rest: seq<Byte>)
    requires ResponseOk(r) && counts < 0x1_0000_0000 && msg == Serialize(r, counts, rest) && GroundedIn(msg, r)
    ensures Holds(msg, 0, PutHeader(r, counts))
    ensures forall q | q in r.questions :: QuestionOk(q) && Grounded(msg, q.name)
    ensures AllSound(msg, r.answers) && forall a | a in r.answers :: AnswerOk(a)
    ensures Holds(msg, 12, PutQuestions(r.questions))
    ensures Holds(msg, 12 + |PutQuestions(r.questions)|, PutAnswers(r.answers))
  {
    hide PutHeader, PutQuestions, PutAnswers, QuestionOk, AnswerOk, Grounded, AllSound, Holds;
    var body := PutQuestions(r.questions) + (PutAnswers(r.answers) + rest);
    HoldsAll(msg);
    HoldsParts(msg, 0, PutHeader(r, counts), body);
    HoldsParts(msg, 12, PutQuestions(r.questions), PutAnswers(r.answers) + rest);
    HoldsParts(msg, 12 + |PutQuestions(r.questions)|, PutAnswers(r.answers), rest);
  }

  lemma {:induction false} HoldsAll(msg: seq<Byte>)
    ensures Holds(msg, 0, msg)
  {
    assert msg[0..|msg|] == msg;
  }

  lemma {:induction false} ParseSections(msg: seq<Byte>, id: nat, after: nat, records: seq<Record>)
    requires |msg| >= 12 && U16(msg, 0) == id && (U16(msg, 2) % 16 == 0 || U16(msg, 2) % 16 == 3)
    requires Skipped(msg, 12, U16(msg, 4)) == To(after)
    requires Answered(msg, after, U16(msg, 6), []) == Answers(records, true)
    ensures Parse(msg, id) == Parsed(records, (U16(msg, 2) / 512) % 2 == 1, true)
  {
    hide U16, Skipped, Answered;
  }

  // ----- every message: what is refused, and what is kept of the rest

  /** The header is there, with the right identifier. */
  predicate HeaderFits(msg: seq<Byte>, wantID: nat)
  {
    |msg| >= 12 && msg[0] as int * 256 + msg[1] as int == wantID
  }

  /** No error (0) or no such name (3). */
  predicate GoodCode(msg: seq<Byte>)
    requires |msg| >= 12
  {
    msg[3] % 16 == 0 || msg[3] % 16 == 3
  }

  lemma {:induction false} FlagBytes(msg: seq<Byte>)
    requires |msg| >= 12
    ensures U16(msg, 2) % 16 == msg[3] % 16 && (U16(msg, 2) / 512) % 2 == (msg[2] / 2) % 2
  {
    var high: int, low: int := msg[2], msg[3];
    assert U16(msg, 2) == high * 256 + low;
    assert (high * 256 + low) / 512 == high / 2;
  }

  /** A response without a header, with another identifier or with an error code gives no records, but an error. */
  lemma {:induction false} Refusals(msg: seq<Byte>, wantID: nat)
    ensures var r := Parse(msg, wantID);
            && (!HeaderFits(msg, wantID) ==> r == Parsed([], false, false))
            && (HeaderFits(msg, wantID) && !GoodCode(msg) ==> r.records == [] && !r.ok)
            && (HeaderFits(msg, wantID) ==> (r.truncated <==> (msg[2] / 2) % 2 == 1))
            && (r.ok ==> HeaderFits(msg, wantID) && GoodCode(msg))
  {
    hide Skipped, Answered;
    if |msg| >= 12 {
      FlagBytes(msg);
    }
  }

  /** A name at `at` is followed by `more` bytes or their place, and then `next` is where to go on. */
  predicate QuestionAt(msg: seq<Byte>, at: nat, next: nat)
  {
    DecodedAt(msg, at).Decoded? && next == DecodedAt(msg, at).end + 4
  }

  /** The questions lie at these places, one after the other. */
  predicate QuestionsAt(msg: seq<Byte>, cuts: seq<nat>)
  {
    |cuts| > 0 && forall k | 0 < k < |cuts| :: QuestionAt(msg, cuts[k - 1], cuts[k])
  }

  /** The question section is passed over as far as its names can be read. */
  lemma {:induction false} SkippedExactly(msg: seq<Byte>, offset: nat, count: nat) returns (cuts: seq<nat>)
    ensures QuestionsAt(msg, cuts) && cuts[0] == offset && |cuts| <= count + 1
    ensures match Skipped(msg, offset, count)
            case To(end) => |cuts| == count + 1 && end == cuts[count]
            case Failed => |cuts| <= count && DecodedAt(msg, cuts[|cuts| - 1]).Broken?
    decreases count
  {
    hide DecodedAt;
    cuts := [offset];
    if count > 0 && DecodedAt(msg, offset).Decoded? {
      var rest := SkippedExactly(msg, DecodedAt(msg, offset).end + 4, count - 1);
      cuts := [offset] + rest;
    }
  }

  /** A whole answer lies at `at`: a name, ten bytes, and as many as they say; `next` is after them. */
  predicate AnswerAt(msg: seq<Byte>, at: nat, next: nat)
  {
    && DecodedAt(msg, at).Decoded?
    && var end := DecodedAt(msg, at).end;
       end + 10 <= |msg| && next == end + 10 + Word(msg, end + 8) && next <= |msg|
  }

  /** Two bytes, the high one first. */
  function Word(msg: seq<Byte>, at: nat): (n: nat)
    requires at + 2 <= |msg|
  {
    256 * (msg[at] as int) + msg[at + 1] as int
  }

  /** What the answer that lies there contributes: an address of the right size, or an alias that can be read. */
  function RecordAt(msg: seq<Byte>, at: nat, next: nat): (r: seq<Record>)
    requires AnswerAt(msg, at, next)
  {
    var end := DecodedAt(msg, at).end;
    var rrType, ttl, data := Word(msg, end), Word(msg, end + 4) * 65536 + Word(msg, end + 6), msg[end + 10..next];
    if (rrType == 1 && |data| == 4) || (rrType == 28 && |data| == 16) then [Record(rrType, Address(data), ttl)]
    else if rrType == 5 && DecodedAt(msg, end + 10).Decoded? then
      [Record(rrType, Alias(DecodedAt(msg, end + 10).name), ttl)]
    else []
  }

  /** Answers lie at these places, one after the other, each beginning inside the message. */
  predicate AnswersAt(msg: seq<Byte>, cuts: seq<nat>)
  {
    |cuts| > 0 && forall k | 0 <= k < |cuts| - 1 :: AnswerLink(msg, cuts, k)
  }

  predicate AnswerLink(msg: seq<Byte>, cuts: seq<nat>, k: nat)
    requires k + 1 < |cuts|
  {
    cuts[k] < |msg| && AnswerAt(msg, cuts[k], cuts[k + 1])
  }

  /** The records of the answers at these places. */
  function RecordsAt(msg: seq<Byte>, cuts: seq<nat>): (r: seq<Record>)
    requires AnswersAt(msg, cuts)
  {
    if |cuts| == 1 then []
    else
      AnswersRest(msg, cuts);
      RecordAt(msg, cuts[0], cuts[1]) + RecordsAt(msg, cuts[1..])
  }

  lemma {:induction false} AnswersRest(msg: seq<Byte>, cuts: seq<nat>)
    requires AnswersAt(msg, cuts) && |cuts| > 1
    ensures AnswersAt(msg, cuts[1..]) && AnswerAt(msg, cuts[0], cuts[1])
  {
    hide AnswerAt;
    var rest := cuts[1..];
    forall k | 0 <= k < |rest| - 1 ensures AnswerLink(msg, rest, k) {
      assert AnswerLink(msg, cuts, k + 1);
    }
    assert AnswerLink(msg, cuts, 0);
  }

  /** One answer as the reading loop sees it. */
  lemma {:induction false} OneAnswer(msg: seq<Byte>, at: nat, next: nat)
    ensures AnswerAt(msg, at, next) <==>
              && DecodedAt(msg, at).Decoded?
              && DecodedAt(msg, at).end + 10 <= |msg|
              && next == DecodedAt(msg, at).end + 10 + U16(msg, DecodedAt(msg, at).end + 8) && next <= |msg|
    ensures AnswerAt(msg, at, next) ==>
              var end := DecodedAt(msg, at).end;
              Kept(msg, U16(msg, end), U32(msg, end + 4), end + 10, U16(msg, end + 8)) == RecordAt(msg, at, next)
  {
    hide DecodedAt;
  }

  lemma {:induction false} AnswersCons(msg: seq<Byte>, at: nat, rest: seq<nat>)
    requires AnswersAt(msg, rest) && at < |msg| && AnswerAt(msg, at, rest[0])
    ensures AnswersAt(msg, [at] + rest)
    ensures RecordsAt(msg, [at] + rest) == RecordAt(msg, at, rest[0]) + RecordsAt(msg, rest)
  {
    hide AnswerAt, RecordAt;
    var cuts := [at] + rest;
    forall k | 0 <= k < |cuts| - 1 ensures AnswerLink(msg, cuts, k) {
      if k > 0 {
        assert AnswerLink(msg, rest, k - 1);
      }
    }
    assert cuts[1..] == rest;
  }

  /**
   The answer section of every message: answers are read one after the other up to the count
   or the end of the message, which is no error, or up to the first that is not whole, which
   is one; what the whole ones contribute is kept in either case.
   */
  lemma {:induction false} AnsweredExactly(msg: seq<Byte>, offset: nat, count: nat, records: seq<Record>)
    returns (cuts: seq<nat>)
    ensures AnswersAt(msg, cuts) && cuts[0] == offset && |cuts| <= count + 1
    ensures var r, last := Answered(msg, offset, count, records), cuts[|cuts| - 1];
            && r.records == records + RecordsAt(msg, cuts)
            && (r.ok <==> |cuts| == count + 1 || last >= |msg|)
            && (!r.ok ==> forall next :: !AnswerAt(msg, last, next))
    decreases count
  {
    hide DecodedAt, AnswerAt, RecordAt, Kept, U16, U32;
    cuts := [offset];
    assert records + [] == records;
    forall next {
      OneAnswer(msg, offset, next);
    }
    if count > 0 && offset < |msg| && DecodedAt(msg, offset).Decoded? && DecodedAt(msg, offset).end + 10 <= |msg| {
      var end := DecodedAt(msg, offset).end;
      var next := end + 10 + U16(msg, end + 8);
      if next <= |msg| {
        var kept := RecordAt(msg, offset, next);
        var rest := AnsweredExactly(msg, next, count - 1, records + kept);
        AnswersCons(msg, offset, rest);
        CatAssoc(records, kept, RecordsAt(msg, rest));
        cuts := [offset] + rest;
      }
    }
  }

  /**
   Every message: it is accepted exactly when its header fits, its question names can be read,
   its response code is 0 or 3, and its answers are whole up to their count or the end of the
   message; and its records are those of its whole answers, in order, once the code is reached.
   */
  lemma {:induction false} ParseExactly(msg: seq<Byte>, wantID: nat) returns (qs: seq<nat>, cuts: seq<nat>)
    requires HeaderFits(msg, wantID)
    ensures QuestionsAt(msg, qs) && qs[0] == 12 && |qs| <= Word(msg, 4) + 1
    ensures |qs| <= Word(msg, 4) ==> DecodedAt(msg, qs[|qs| - 1]).Broken?
    ensures AnswersAt(msg, cuts) && cuts[0] == qs[|qs| - 1] && |cuts| <= Word(msg, 6) + 1
    ensures var r, last, read := Parse(msg, wantID), cuts[|cuts| - 1], |qs| == Word(msg, 4) + 1 && GoodCode(msg);
            && (r.ok <==> read && (|cuts| == Word(msg, 6) + 1 || last >= |msg|))
            && r.records == (if read then RecordsAt(msg, cuts) else [])
            && (read && !r.ok ==> forall next :: !AnswerAt(msg, last, next))
  {
    hide DecodedAt, Skipped, Answered, AnswerAt, RecordsAt;
    FlagBytes(msg);
    assert Word(msg, 4) == U16(msg, 4) && Word(msg, 6) == U16(msg, 6) && Word(msg, 0) == U16(msg, 0);
    qs := SkippedExactly(msg, 12, U16(msg, 4));
    cuts := AnsweredExactly(msg, qs[|qs| - 1], U16(msg, 6), []);
    assert [] + RecordsAt(msg, cuts) == RecordsAt(msg, cuts);
  }
}
