/**
 * The reply direction of the message parser: the TTL the resolver caches a
 * reply for (main.go, parseTTL). It skips QDCOUNT questions (name, zero octet,
 * QTYPE and QCLASS) and reads four octets at 4 past the end of the question
 * section. It does not skip the NAME field that starts an answer record in
 * section 4.1.3 of RFC 1035; the offsets here are those of the code.
 */
module TtlParser {
  import opened Wrappers
  import opened Wire
  import opened QueryParser

  /** time.Second, in the nanoseconds of a time.Duration */
  const NanosPerSecond: nat := 1_000_000_000
  /** Octets of QTYPE and QCLASS after a question's name */
  const QuestionFixedSize: nat := 4

  /** QDCOUNT, bytes 4-5 of the header */
  function QuestionCount(r: seq<Byte>): Uint16
    requires |r| >= HeaderSize
  {
    BE16(r[4], r[5])
  }

  /**
   * The inner loop of parseTTL: jump over labels from offset i without
   * checking that they fit. It ends at a zero octet or at or past the end.
   */
  function SkipName(r: seq<Byte>, i: nat): (j: nat)
    ensures i <= j
    ensures j < |r| ==> r[j] == 0
    decreases |r| - i
  {
    if i >= |r| || r[i] == 0 then i else SkipName(r, i + r[i] + 1)
  }

  /**
   * The outer loop of parseTTL: the offset just past n questions from offset
   * i, or None when a name runs to the end of the reply.
   */
  function SkipQuestions(r: seq<Byte>, i: nat, n: nat): (end: Option<nat>)
    ensures end.Some? ==> end.value >= i + 5 * n
    decreases n
  {
    if n == 0 then Some(i)
    else
      var j := SkipName(r, i);
      if j >= |r| then None else SkipQuestions(r, j + 1 + QuestionFixedSize, n - 1)
  }

  /** The TTL, in seconds, that parseTTL reads from a reply (0 when it gives up). */
  function AnswerTTL(r: seq<Byte>): Uint32
  {
    if |r| < HeaderSize then 0
    else match SkipQuestions(r, HeaderSize, QuestionCount(r))
      case None => 0
      case Some(p) => if p + 10 >= |r| then 0 else BE32(r[p + 4 .. p + 8])
  }

  /** parseTTL: nested cursor loops over the question section. */
  method ParseTTL(resp: seq<Byte>) returns (ttl: nat)
    ensures ttl == AnswerTTL(resp) * NanosPerSecond
    // so time.Duration(ttl) * time.Second never overflows an int64
    ensures ttl < 0x8000_0000_0000_0000
  {
    if |resp| < HeaderSize {
      return 0;
    }
    var qdCount := QuestionCount(resp);
    var i: nat := HeaderSize;
    var q := 0;
    while q < qdCount
      invariant 0 <= q <= qdCount
      invariant SkipQuestions(resp, i, qdCount - q) == SkipQuestions(resp, HeaderSize, qdCount)
    {
      ghost var start := i;
      while i < |resp| && resp[i] != 0
        invariant start <= i
        invariant SkipName(resp, i) == SkipName(resp, start)
        decreases |resp| - i
      {
        var jump: nat := resp[i] as int + 1;
        i := i + jump;
      }
      if i >= |resp| {
        return 0;
      }
      i := i + 1;
      i := i + QuestionFixedSize;
      q := q + 1;
    }
    if i + 10 >= |resp| {
      return 0;
    }
    ttl := BE32(resp[i + 4 .. i + 8]) * NanosPerSecond;
  }

  /**
   * A reply too short to hold the header, QDCOUNT minimal questions and the
   * 11 octets the code reads past them yields 0.
   */
  lemma ShortReplyHasNoTTL(r: seq<Byte>)
    requires |r| < HeaderSize || |r| <= HeaderSize + 5 * QuestionCount(r) + 10
    ensures AnswerTTL(r) == 0
  {
  }

  /** A question entry as it appears on the wire. */
  datatype QuestionEntry = QuestionEntry(labels: seq<Label>, qtype: Uint16, qclass: Uint16)

  function EncodeQuestion(q: QuestionEntry): seq<Byte>
  {
    EncodeName(q.labels) + [0] + BE16Bytes(q.qtype) + BE16Bytes(q.qclass)
  }

  function EncodeQuestions(qs: seq<QuestionEntry>): seq<Byte>
  {
    if qs == [] then [] else EncodeQuestion(qs[0]) + EncodeQuestions(qs[1..])
  }

  /** The label jumps of parseTTL pass over an encoded name and resume right after it. */
  lemma {:induction false} SkipOverName(r: seq<Byte>, i: nat, labels: seq<Label>)
    requires i + |EncodeName(labels)| <= |r|
    requires r[i .. i + |EncodeName(labels)|] == EncodeName(labels)
    ensures SkipName(r, i) == SkipName(r, i + |EncodeName(labels)|)
    decreases labels
  {
    if labels != [] {
      var l := labels[0];
      var e := EncodeName(labels);
      var j := i + 1 + |l|;
      assert e == [|l| as Byte] + l + EncodeName(labels[1..]);
      assert r[i] == e[0] == |l|;
      assert r[j .. j + |EncodeName(labels[1..])|] == e[1 + |l| ..];
      SkipOverName(r, j, labels[1..]);
    }
  }

  /**
   * A reply whose first question name runs to the end of the reply without a
   * zero terminator yields 0.
   */
  lemma UnterminatedQuestionHasNoTTL(header: seq<Byte>, labels: seq<Label>)
    requires |header| == HeaderSize && BE16(header[4], header[5]) > 0
    ensures AnswerTTL(header + EncodeName(labels)) == 0
  {
    var r := header + EncodeName(labels);
    assert r[HeaderSize ..] == EncodeName(labels);
    assert r[4] == header[4] && r[5] == header[5];
    SkipOverName(r, HeaderSize, labels);
  }

  /** The name walk of one encoded question stops at its terminator. */
  lemma SkipOverQuestion(r: seq<Byte>, i: nat, q: QuestionEntry)
    requires i + |EncodeQuestion(q)| <= |r|
    requires r[i .. i + |EncodeQuestion(q)|] == EncodeQuestion(q)
    ensures |EncodeQuestion(q)| == |EncodeName(q.labels)| + 1 + QuestionFixedSize
    ensures SkipName(r, i) == i + |EncodeName(q.labels)| < |r|
  {
    var name := EncodeName(q.labels);
    var fixed := BE16Bytes(q.qtype) + BE16Bytes(q.qclass);
    assert EncodeQuestion(q) == name + ([0] + fixed);
    SplitSlice(r, i, name, [0] + fixed);
    var n := i + |name|;
    assert r[n] == 0 by {
      assert r[n .. n + 1 + |fixed|][0] == 0;
    }
    SkipOverName(r, i, q.labels);
  }

  /** Skipping the encoded questions ends just past them. */
  lemma {:induction false} SkipOverQuestions(r: seq<Byte>, i: nat, qs: seq<QuestionEntry>)
    requires i + |EncodeQuestions(qs)| <= |r|
    requires r[i .. i + |EncodeQuestions(qs)|] == EncodeQuestions(qs)
    ensures SkipQuestions(r, i, |qs|) == Some(i + |EncodeQuestions(qs)|)
    decreases qs
  {
    if qs != [] {
      var head := EncodeQuestion(qs[0]);
      var tail := EncodeQuestions(qs[1..]);
      var next := i + |head|;
      assert next + |tail| == i + |EncodeQuestions(qs)| &&
             r[i .. next] == head && r[next .. next + |tail|] == tail by {
        SplitSlice(r, i, head, tail);
      }
      assert SkipName(r, i) < |r| && SkipName(r, i) + 1 + QuestionFixedSize == next by {
        SkipOverQuestion(r, i, qs[0]);
      }
      assert SkipQuestions(r, i, |qs|) == SkipQuestions(r, next, |qs| - 1);
      assert SkipQuestions(r, next, |qs| - 1) == Some(next + |tail|) by {
        SkipOverQuestions(r, next, qs[1..]);
      }
    }
  }

  /** Once the questions are skipped and 11 octets follow, the value at 4 past them is read. */
  lemma AnswerTTLAt(r: seq<Byte>, p: nat)
    requires |r| >= HeaderSize && SkipQuestions(r, HeaderSize, QuestionCount(r)) == Some(p)
    requires p + 10 < |r|
    ensures AnswerTTL(r) == BE32(r[p + 4 .. p + 8])
  {
  }

  /**
   * A header whose QDCOUNT counts the questions that follow it, then four
   * octets, BE32(v) and at least three more octets: parseTTL reads v.
   */
  lemma ReplyTTLRoundTrip(header: seq<Byte>, qs: seq<QuestionEntry>, skipped: seq<Byte>, v: Uint32, rest: seq<Byte>)
    requires |header| == HeaderSize && BE16(header[4], header[5]) == |qs|
    requires |skipped| == 4 && |rest| >= 3
    ensures AnswerTTL(header + EncodeQuestions(qs) + skipped + BE32Bytes(v) + rest) == v
  {
    var e := EncodeQuestions(qs);
    var b := BE32Bytes(v);
    var r := header + e + skipped + b + rest;
    var p := HeaderSize + |e|;
    MiddleSlice(header, e, skipped + b + rest);
    assert r == header + e + (skipped + b + rest);
    SkipOverQuestions(r, HeaderSize, qs);
    assert QuestionCount(r) == |qs| by {
      assert r[4] == header[4] && r[5] == header[5];
    }
    assert SkipQuestions(r, HeaderSize, QuestionCount(r)) == Some(p);
    MiddleSlice(header + e + skipped, b, rest);
    assert |header + e + skipped| == p + 4;
    assert r[p + 4 .. p + 8] == b;
    AnswerTTLAt(r, p);
  }

  /** CLASS followed by the upper half of TTL, read as one 32-bit number */
  lemma ClassAndUpperTTL(rrClass: Uint16, rrTTL: Uint32)
    ensures rrClass * 0x1_0000 + rrTTL / 0x1_0000 < 0x1_0000_0000
    ensures BE32Bytes(rrClass * 0x1_0000 + rrTTL / 0x1_0000) == BE16Bytes(rrClass) + BE32Bytes(rrTTL)[.. 2]
  {
    var read := rrClass * 0x1_0000 + rrTTL / 0x1_0000;
    assert read / 0x1_0000 == rrClass && read % 0x1_0000 == rrTTL / 0x1_0000;
  }

  /**
   * The octets of an answer record regrouped around the four octets the code
   * reads: CLASS and the upper half of TTL, as one 32-bit number.
   */
  lemma RegroupAnswer(e: seq<Byte>, pointer: Uint16, rrType: Uint16, rrClass: Uint16, rrTTL: Uint32, rest: seq<Byte>)
    ensures rrClass * 0x1_0000 + rrTTL / 0x1_0000 < 0x1_0000_0000
    ensures e + BE16Bytes(pointer) + BE16Bytes(rrType) + BE16Bytes(rrClass) + BE32Bytes(rrTTL) + rest
            == e + (BE16Bytes(pointer) + BE16Bytes(rrType)) + BE32Bytes(rrClass * 0x1_0000 + rrTTL / 0x1_0000)
               + (BE32Bytes(rrTTL)[2 ..] + rest)
  {
    ClassAndUpperTTL(rrClass, rrTTL);
    var t := BE32Bytes(rrTTL);
    assert t == t[.. 2] + t[2 ..];
  }

  /**
   * For an answer that starts, as RFC 1035 section 4.1.3 has it, with a
   * two-octet compression pointer, then TYPE, CLASS, TTL and RDLENGTH, the
   * code's offsets read CLASS and the upper half of TTL, not the TTL.
   */
  lemma CompressedAnswerTTL(header: seq<Byte>, qs: seq<QuestionEntry>, pointer: Uint16,
                            rrType: Uint16, rrClass: Uint16, rrTTL: Uint32, rest: seq<Byte>)
    requires |header| == HeaderSize && BE16(header[4], header[5]) == |qs|
    requires |rest| >= 1
    ensures AnswerTTL(header + EncodeQuestions(qs) + BE16Bytes(pointer) + BE16Bytes(rrType)
                      + BE16Bytes(rrClass) + BE32Bytes(rrTTL) + rest)
            == rrClass * 0x1_0000 + rrTTL / 0x1_0000
  {
    RegroupAnswer(header + EncodeQuestions(qs), pointer, rrType, rrClass, rrTTL, rest);
    ReplyTTLRoundTrip(header, qs, BE16Bytes(pointer) + BE16Bytes(rrType),
                      rrClass * 0x1_0000 + rrTTL / 0x1_0000, BE32Bytes(rrTTL)[2 ..] + rest);
  }
}
