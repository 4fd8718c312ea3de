/** Replies the forwarder makes up itself: the captive answer while WiFi is down, SERVFAIL while it is up. */
module DnsReply {
  import opened Bytes
  import opened Packet

  type Message = seq<byte>

  const COPY_MAX := 200
  const TYPE_A: u16 := 1
  const ADDRESS: Message := [GATEWAY.a, GATEWAY.b, GATEWAY.c, GATEWAY.d]
  /** An A record for the name at offset 12, class IN, 60 seconds, the gateway's address. */
  const ANSWER: Message := [0xC0, 0x0C, 0, 1, 0, 1, 0, 0, 0, 0x3C, 0, 4] + ADDRESS

  function At16(s: Message, i: nat): u16
    requires i + 1 < |s|
  {
    Net16(s[i], s[i + 1])
  }

  // ---------------------------------------------------------------- what the builders compute

  /** The label walk from off: just past the name, or wherever the query ran out. */
  ghost function Walk(q: Message, off: nat): (r: nat)
    ensures off <= r
    decreases |q| - off
  {
    if off + 4 >= |q| then off
    else if q[off] == 0 then off + 1
    else if q[off] >= 0xC0 then off + 2
    else Walk(q, off + 1 + q[off])
  }

  function Header(q: Message, rcode: byte, answers: byte): (r: Message)
    requires |q| >= 2
    ensures |r| == 12
  {
    [q[0], q[1], 0x81, rcode, 0, 1, 0, answers, 0, 0, 0, 0]
  }

  /** At most COPY_MAX bytes of a query are copied. */
  function Cut(q: Message): (r: Message)
    ensures |r| <= COPY_MAX && (|q| <= COPY_MAX ==> r == q)
  {
    if |q| > COPY_MAX then q[..COPY_MAX] else q
  }

  ghost function Captive(q: Message, rmax: nat): Message {
    if |q| < 12 || rmax < 28 then []
    else
      var off := Walk(q, 12);
      if off + 4 > |q| then []
      else if At16(q, off) != TYPE_A then
        Header(q, 0x83, 0) + if |Cut(q)| <= rmax then Cut(q)[12..] else []
      else if |Cut(q)| <= 12 || |Cut(q)| + 16 > rmax then []
      else Header(q, 0x80, 1) + Cut(q)[12..] + ANSWER
  }

  ghost function ServFail(q: Message, rmax: nat): Message {
    if |q| < 12 || rmax < 12 then []
    else Header(q, 0x82, 0) + if |Cut(q)| <= rmax then Cut(q)[12..] else []
  }

  lemma CutIs(q: Message, n: nat)
    requires n == if |q| > COPY_MAX then COPY_MAX else |q|
    ensures Cut(q) == q[..n]
    ensures n >= 12 ==> Cut(q)[12..] == q[12..n]
  {
  }

  lemma AnswerLength()
    ensures |ANSWER| == 16
  {
  }

  /** memcpy into the reply buffer. */
  method Put(src: Message, reply: array<byte>, at: nat)
    requires at + |src| <= reply.Length
    modifies reply
    ensures reply[..at + |src|] == old(reply[..at]) + src
  {
    for i := 0 to |src|
      invariant reply[..at + i] == old(reply[..at]) + src[..i]
    {
      reply[at + i] := src[i];
    }
    assert src[..|src|] == src;
  }

  /** Where the question's type should be: walk the labels of the name. */
  method FindType(query: Message) returns (off: nat)
    requires |query| >= 12
    ensures off == Walk(query, 12)
  {
    off := 12;
    while off < |query| - 4
      invariant 12 <= off
      invariant Walk(query, off) == Walk(query, 12)
      decreases |query| - off
    {
      var len := query[off];
      if len == 0 {
        off := off + 1;
        break;
      }
      if len >= 0xC0 {
        off := off + 2;
        break;
      }
      off := off + 1 + len;
    }
  }

  /** dns_make_captive_reply: any bytes, no index outside the query or the buffer. */
  method MakeCaptive(query: Message, reply: array<byte>) returns (rlen: nat)
    modifies reply
    ensures rlen <= reply.Length && reply[..rlen] == Captive(query, reply.Length)
  {
    AnswerLength();
    hide Header, ANSWER, At16, Cut, Walk;
    var qlen, rmax := |query|, reply.Length;
    if qlen < 12 || rmax < 28 {
      return 0;
    }
    var off := FindType(query);
    if off + 4 > qlen {
      return 0;
    }
    var qtype := At16(query, off);
    if qlen > COPY_MAX { qlen := COPY_MAX; }
    var cut := query[..qlen];
    CutIs(query, qlen);
    if qtype != TYPE_A {
      Put(Header(query, 0x83, 0), reply, 0);
      rlen := 12;
      if qlen - 12 > 0 && qlen <= rmax {
        Put(cut[12..], reply, 12);
        rlen := qlen;
      }
      return;
    }
    Put(Header(query, 0x80, 1), reply, 0);
    if qlen - 12 <= 0 || qlen + 16 > rmax {
      return 0;
    }
    Put(cut[12..], reply, 12);
    Put(ANSWER, reply, qlen);
    return qlen + 16;
  }

  /** dns_make_servfail_reply */
  method MakeServFail(query: Message, reply: array<byte>) returns (rlen: nat)
    modifies reply
    ensures rlen <= reply.Length && reply[..rlen] == ServFail(query, reply.Length)
  {
    hide Header, Cut;
    var qlen, rmax := |query|, reply.Length;
    if qlen < 12 || rmax < 12 {
      return 0;
    }
    if qlen > COPY_MAX { qlen := COPY_MAX; }
    CutIs(query, qlen);
    Put(Header(query, 0x82, 0), reply, 0);
    rlen := 12;
    if qlen - 12 > 0 && qlen <= rmax {
      Put(query[12..qlen], reply, 12);
      rlen := qlen;
    }
  }

  // ---------------------------------------------------------------- messages (section 4.1 of RFC 1035)

  type Label = seq<byte>

  datatype Question = Question(name: seq<Label>, qtype: u16, qclass: u16)

  /** A query with one question; its header may announce further records, as with EDNS. */
  datatype Query = Query(id: u16, flags: u16, answers: u16, authorities: u16, additionals: u16, question: Question)

  datatype Record = Record(name: seq<Label>, rtype: u16, rclass: u16, ttl: nat, data: seq<byte>)

  datatype Response = Response(id: u16, flags: u16, question: Question, answer: Option<Record>)

  function U16(n: u16): (r: Message)
    ensures |r| == 2 && Net16(r[0], r[1]) == n
  {
    [n / 256, n % 256]
  }

  ghost predicate NameOk(name: seq<Label>) { forall i :: 0 <= i < |name| ==> 1 <= |name[i]| <= 63 }

  ghost function PrintName(name: seq<Label>): (r: Message)
    requires NameOk(name)
    ensures |r| >= 1
  {
    if name == [] then [0] else [|name[0]|] + name[0] + PrintName(name[1..])
  }

  ghost function PrintQuestion(q: Question): Message
    requires NameOk(q.name)
  {
    PrintName(q.name) + U16(q.qtype) + U16(q.qclass)
  }

  function QueryHeader(q: Query): (r: Message)
    ensures |r| == 12 && r[0] == q.id / 256 && r[1] == q.id % 256
  {
    U16(q.id) + U16(q.flags) + U16(1) + U16(q.answers) + U16(q.authorities) + U16(q.additionals)
  }

  /** The query up to the end of its question; the records announced follow. */
  ghost function PrintQuery(q: Query): Message
    requires NameOk(q.question.name)
  {
    QueryHeader(q) + PrintQuestion(q.question)
  }

  ghost function ParseName(s: Message, off: nat): (r: Option<(seq<Label>, nat)>)
    ensures r.Some? ==> off < r.value.1 <= |s|
    decreases |s| - off
  {
    if off >= |s| || s[off] > 63 then None
    else if s[off] == 0 then Some(([], off + 1))
    else if off + 1 + s[off] > |s| then None
    else
      match ParseName(s, off + 1 + s[off])
      case None => None
      case Some((rest, end)) => Some(([s[off + 1..off + 1 + s[off]]] + rest, end))
  }

  /** A record whose name is the pointer to offset 12, taking up all the rest of the message. */
  ghost function ParseRecord(s: Message, off: nat, name: seq<Label>): Option<Record> {
    if off + 12 > |s| || s[off] != 0xC0 || s[off + 1] != 12 then None
    else if off + 12 + At16(s, off + 10) != |s| then None
    else
      var ttl := 0x1_0000 * At16(s, off + 6) + At16(s, off + 8);
      Some(Record(name, At16(s, off + 2), At16(s, off + 4), ttl, s[off + 12..]))
  }

  /** A reply with one question and at most one answer, and nothing after them. */
  ghost function ParseResponse(s: Message): Option<Response> {
    if |s| < 12 || At16(s, 4) != 1 || At16(s, 6) > 1 || At16(s, 8) != 0 || At16(s, 10) != 0 then None
    else
      match ParseName(s, 12)
      case None => None
      case Some((name, end)) =>
        if end + 4 > |s| then None
        else
          var q := Question(name, At16(s, end), At16(s, end + 2));
          if At16(s, 6) == 0 then
            if end + 4 == |s| then Some(Response(At16(s, 0), At16(s, 2), q, None)) else None
          else
            match ParseRecord(s, end + 4, name)
            case None => None
            case Some(a) => Some(Response(At16(s, 0), At16(s, 2), q, Some(a)))
  }

  // ---------------------------------------------------------------- the captive reply read back

  lemma NameEnd(s: Message, off: nat)
    requires off < |s| && s[off] == 0
    ensures ParseName(s, off) == Some(([], off + 1))
    ensures off + 4 < |s| ==> Walk(s, off) == off + 1
  {
  }

  /** A label of 1 to 63 bytes is stepped over. */
  lemma LabelStep(s: Message, off: nat, lab: Label)
    requires 1 <= |lab| <= 63 && off + 1 + |lab| <= |s| && s[off] == |lab|
    requires s[off + 1..off + 1 + |lab|] == lab
    ensures var rest := ParseName(s, off + 1 + |lab|);
            ParseName(s, off) == if rest.None? then None else Some(([lab] + rest.value.0, rest.value.1))
    ensures off + 4 < |s| ==> Walk(s, off) == Walk(s, off + 1 + |lab|)
  {
  }

  /** A printed name is walked over, and parsed back, wherever it stands. */
  lemma {:induction false} NameRead(s: Message, pre: Message, name: seq<Label>, suf: Message)
    requires NameOk(name) && s == pre + PrintName(name) + suf
    ensures ParseName(s, |pre|) == Some((name, |pre| + |PrintName(name)|))
    ensures |suf| >= 4 ==> Walk(s, |pre|) == |pre| + |PrintName(name)|
    decreases |name|
  {
    hide ParseName, Walk;
    if name == [] {
      assert s[|pre|] == PrintName(name)[0];
      NameEnd(s, |pre|);
    } else {
      var one, more := [|name[0]|] + name[0], PrintName(name[1..]);
      assert PrintName(name) == one + more;
      assert s == (pre + one) + more + suf;
      NameRead(s, pre + one, name[1..], suf);
      assert s[|pre|] == one[0];
      assert s[|pre| + 1..|pre| + 1 + |name[0]|] == one[1..];
      LabelStep(s, |pre|, name[0]);
      assert [name[0]] + name[1..] == name;
    }
  }

  lemma QueryParts(q: Query, trailer: Message)
    requires NameOk(q.question.name)
    ensures var s := PrintQuery(q) + trailer;
            && |s| >= 17 && s[0] == q.id / 256 && s[1] == q.id % 256
            && s[12..] == PrintQuestion(q.question) + trailer
            && s == s[..12] + PrintName(q.question.name) + (U16(q.question.qtype) + U16(q.question.qclass) + trailer)
  {
    hide QueryHeader, PrintName, PrintQuestion, U16;
    var head, question := QueryHeader(q), PrintQuestion(q.question);
    HeadOf(head, question + trailer);
    Joined(head, question, trailer);
    QuestionParts(q.question, trailer);
    Joined(head, PrintName(q.question.name), U16(q.question.qtype) + U16(q.question.qclass) + trailer);
  }

  lemma QuestionParts(q: Question, trailer: Message)
    requires NameOk(q.name)
    ensures PrintQuestion(q) + trailer == PrintName(q.name) + (U16(q.qtype) + U16(q.qclass) + trailer)
    ensures |PrintQuestion(q)| >= 5
  {
    hide PrintName;
  }

  lemma Joined(a: Message, b: Message, c: Message)
    ensures a + b + c == a + (b + c)
  {
  }

  lemma HeadOf(head: Message, rest: Message)
    requires |head| == 12
    ensures (head + rest)[..12] == head && (head + rest)[12..] == rest
  {
  }

  /** The type field of the query is where the walk stops. */
  lemma QueryType(q: Query, trailer: Message)
    requires NameOk(q.question.name)
    ensures var s := PrintQuery(q) + trailer;
            var off := Walk(s, 12);
            off + 4 <= |s| && At16(s, off) == q.question.qtype
  {
    var s := PrintQuery(q) + trailer;
    var t := U16(q.question.qtype) + U16(q.question.qclass) + trailer;
    QueryParts(q, trailer);
    NameRead(s, s[..12], q.question.name, t);
    var off := 12 + |PrintName(q.question.name)|;
    assert s == (s[..12] + PrintName(q.question.name)) + t;
    assert s[off] == t[0] && s[off + 1] == t[1];
  }

  /** What the builders return for a query, in its parts. */
  lemma ReplyParts(q: Query, trailer: Message)
    requires NameOk(q.question.name)
    ensures var s := PrintQuery(q) + trailer;
            && |s| >= 17
            && ServFail(s, 512) == Header(s, 0x82, 0) + Cut(s)[12..]
            && Captive(s, 512) == if q.question.qtype == TYPE_A then Header(s, 0x80, 1) + Cut(s)[12..] + ANSWER
                                  else Header(s, 0x83, 0) + Cut(s)[12..]
  {
    QueryType(q, trailer);
    QueryParts(q, trailer);
    hide Walk, Header, ANSWER, PrintQuery, PrintQuestion;
  }

  /** The header and question of a reply, read back. */
  lemma ReplyFront(head: Message, q: Question, rest: Message)
    requires |head| == 12 && NameOk(q.name)
    ensures var s := head + (PrintQuestion(q) + rest);
            var end := 12 + |PrintName(q.name)|;
            && end + 4 + |rest| == |s| && ParseName(s, 12) == Some((q.name, end))
            && At16(s, end) == q.qtype && At16(s, end + 2) == q.qclass && s[end + 4..] == rest
            && forall i :: 0 <= i < 12 ==> s[i] == head[i]
  {
    var s := head + (PrintQuestion(q) + rest);
    var t := U16(q.qtype) + U16(q.qclass) + rest;
    assert s == head + PrintName(q.name) + t;
    NameRead(s, head, q.name, t);
    assert s == (head + PrintName(q.name)) + t;
    var end := 12 + |PrintName(q.name)|;
    assert s[end] == t[0] && s[end + 1] == t[1] && s[end + 2] == t[2] && s[end + 3] == t[3];
    assert t[4..] == rest;
  }

  lemma AnswerRead(s: Message, off: nat, name: seq<Label>)
    requires off <= |s| && s[off..] == ANSWER
    ensures ParseRecord(s, off, name) == Some(Record(name, TYPE_A, 1, 60, ADDRESS))
  {
    assert forall k :: 0 <= k < 16 ==> s[off + k] == ANSWER[k];
    assert s[off + 12..] == ANSWER[12..];
  }

  /** What the phone should get: its own ID and question, and the gateway's address for a type A question,
      a name error otherwise. */
  ghost function Expected(q: Query): Response {
    if q.question.qtype == TYPE_A then
      Response(q.id, 0x8180, q.question, Some(Record(q.question.name, TYPE_A, 1, 60, ADDRESS)))
    else Response(q.id, 0x8183, q.question, None)
  }

  lemma {:induction false} NameLength(s: Message, off: nat)
    requires ParseName(s, off).Some?
    ensures var (name, end) := ParseName(s, off).value;
            NameOk(name) && end == off + |PrintName(name)|
    decreases |s| - off
  {
    if s[off] != 0 {
      var next := off + 1 + s[off];
      NameLength(s, next);
      var name := ParseName(s, off).value.0;
      assert name[1..] == ParseName(s, next).value.0;
    }
  }

  /** A reply that parses is as long as what it says. */
  lemma ResponseLength(s: Message)
    requires ParseResponse(s).Some?
    ensures var r := ParseResponse(s).value;
            && NameOk(r.question.name)
            && |s| == 12 + |PrintQuestion(r.question)| + if r.answer.Some? then 12 + |r.answer.value.data| else 0
  {
    NameLength(s, 12);
  }

  /** The reply to a type A question. */
  lemma AddressReply(head: Message, q: Question)
    requires |head| == 12 && NameOk(q.name)
    requires At16(head, 4) == 1 && At16(head, 6) == 1 && At16(head, 8) == 0 && At16(head, 10) == 0
    ensures var a := Record(q.name, TYPE_A, 1, 60, ADDRESS);
            ParseResponse(head + PrintQuestion(q) + ANSWER) == Some(Response(At16(head, 0), At16(head, 2), q, Some(a)))
  {
    hide ANSWER, ParseName, ParseRecord, PrintQuestion;
    var s := head + PrintQuestion(q) + ANSWER;
    assert s == head + (PrintQuestion(q) + ANSWER);
    ReplyFront(head, q, ANSWER);
    AnswerRead(s, 12 + |PrintName(q.name)| + 4, q.name);
  }

  /** A reply without records. */
  lemma ErrorReply(head: Message, q: Question)
    requires |head| == 12 && NameOk(q.name)
    requires At16(head, 4) == 1 && At16(head, 6) == 0 && At16(head, 8) == 0 && At16(head, 10) == 0
    ensures ParseResponse(head + PrintQuestion(q)) == Some(Response(At16(head, 0), At16(head, 2), q, None))
  {
    hide ParseName, PrintQuestion;
    ReplyFront(head, q, []);
    assert PrintQuestion(q) + [] == PrintQuestion(q);
  }

  /** A cut query is the query itself exactly if it has its length. */
  lemma CutQuery(q: Query, trailer: Message)
    requires NameOk(q.question.name)
    ensures var s, p := PrintQuery(q) + trailer, PrintQuery(q);
            && |p| == 12 + |PrintQuestion(q.question)| && |Cut(s)| >= 12
            && (Cut(s) == p <==> |Cut(s)| == |p|)
            && (Cut(s) == p ==> Cut(s)[12..] == PrintQuestion(q.question))
  {
    QueryParts(q, trailer);
    QueryParts(q, []);
    hide PrintQuestion;
    assert PrintQuery(q) + [] == PrintQuery(q) && PrintQuestion(q.question) + [] == PrintQuestion(q.question);
  }

  lemma AnswerIsFour()
    ensures |ADDRESS| == 4
  {
  }

  /** Whatever the query's name, type and class, and whatever follows its question, the captive reply parses to the
      expected response exactly when the copied part is the header and the question: a longer question is cut, and
      further records are copied without being counted. */
  lemma {:induction false} CaptiveRead(q: Query, trailer: Message)
    requires NameOk(q.question.name)
    ensures var s := PrintQuery(q) + trailer;
            ParseResponse(Captive(s, 512)) == Some(Expected(q)) <==> Cut(s) == PrintQuery(q)
  {
    hide PrintQuery, PrintQuestion, Captive, ServFail, ParseResponse, ANSWER, Cut;
    var s := PrintQuery(q) + trailer;
    QueryParts(q, trailer);
    ReplyParts(q, trailer);
    CutQuery(q, trailer);
    AnswerLength();
    AnswerIsFour();
    var yes, no := Header(s, 0x80, 1), Header(s, 0x83, 0);
    assert At16(yes, 0) == At16(no, 0) == q.id;
    if Cut(s) == PrintQuery(q) {
      AddressReply(yes, q.question);
      ErrorReply(no, q.question);
    } else if ParseResponse(Captive(s, 512)).Some? {
      ResponseLength(Captive(s, 512));
    }
  }

  /** The SERVFAIL reply, under the same condition: the query's ID and question, response code 2, no records. */
  lemma {:induction false} ServFailRead(q: Query, trailer: Message)
    requires NameOk(q.question.name)
    ensures var s := PrintQuery(q) + trailer;
            ParseResponse(ServFail(s, 512)) == Some(Response(q.id, 0x8182, q.question, None))
            <==> Cut(s) == PrintQuery(q)
  {
    hide PrintQuery, PrintQuestion, Captive, ServFail, ParseResponse, ANSWER, Cut;
    var s := PrintQuery(q) + trailer;
    QueryParts(q, trailer);
    ReplyParts(q, trailer);
    CutQuery(q, trailer);
    var head := Header(s, 0x82, 0);
    assert At16(head, 0) == q.id;
    if Cut(s) == PrintQuery(q) {
      ErrorReply(head, q.question);
    } else if ParseResponse(ServFail(s, 512)).Some? {
      ResponseLength(ServFail(s, 512));
    }
  }

  /** The condition, in sizes: a query of 200 bytes up to the end of its question, or a shorter one with nothing after
      it. */
  lemma FitsExactlyWhen(q: Query, trailer: Message)
    requires NameOk(q.question.name)
    ensures Cut(PrintQuery(q) + trailer) == PrintQuery(q)
       <==> |PrintQuery(q)| == COPY_MAX || (|PrintQuery(q)| < COPY_MAX && trailer == [])
  {
    hide PrintQuery;
    CutQuery(q, trailer);
    assert |Cut(PrintQuery(q) + trailer)| == if |PrintQuery(q) + trailer| > COPY_MAX then COPY_MAX
                                             else |PrintQuery(q)| + |trailer|;
  }

  /** An OPT record (section 6.1.2 of RFC 6891). */
  const OPT: Message := [0, 0, 41, 16, 0, 0, 0, 0, 0, 0, 0]

  /** A short query that announces and carries an OPT record: its captive reply does not parse to what it should. */
  lemma OptRecordSpoils()
    ensures exists q: Query :: NameOk(q.question.name) && q.additionals == 1 && |PrintQuery(q) + OPT| < COPY_MAX
                               && ParseResponse(Captive(PrintQuery(q) + OPT, 512)) != Some(Expected(q))
  {
    var name: seq<Label> := [LongLabel(3)];
    var q := Query(1, 0x100, 0, 0, 1, Question(name, TYPE_A, 1));
    assert |name[1..]| == 0;
    assert |PrintName(name)| == 5;
    assert |PrintQuery(q)| == 21 && |OPT| == 11;
    hide PrintQuery, PrintQuestion, Captive, ParseResponse, Expected, OPT;
    CaptiveRead(q, OPT);
    FitsExactlyWhen(q, OPT);
  }

  function LongLabel(n: nat): Label { seq(n, _ => 0x61) }

  /** A query of 201 bytes for a legal name: its captive reply says something else. */
  lemma LongQuestionCut()
    ensures exists q: Query :: NameOk(q.question.name) && |PrintQuery(q)| == 201
                               && ParseResponse(Captive(PrintQuery(q), 512)) != Some(Expected(q))
  {
    var name: seq<Label> := [LongLabel(60), LongLabel(60), LongLabel(61)];
    var q := Query(1, 0, 0, 0, 0, Question(name, TYPE_A, 1));
    assert NameOk(name);
    assert name[1..][1..] == [LongLabel(61)];
    assert |name[1..][1..][1..]| == 0;
    assert |PrintName(name)| == 185;
    QueryParts(q, []);
    assert PrintQuery(q) + [] == PrintQuery(q) && |PrintQuestion(q.question)| == 189;
    hide PrintQuery, PrintQuestion, Captive, ParseResponse, Expected;
    assert |PrintQuery(q)[12..]| == |PrintQuestion(q.question) + []|;
    CaptiveRead(q, []);
    FitsExactlyWhen(q, []);
  }
}
