/**
 * The query direction of the message parser: the question name and type of a
 * DNS query (main.go, parseQuery). The name is read as the length-prefixed
 * labels of section 3.1 of RFC 1035, starting just past the 12-octet header of
 * section 4.1.1, and the type is the QTYPE field of section 4.1.2.
 */
module QueryParser {
  import opened Wire

  /** Offset of the question section: the fixed header is 12 octets. */
  const HeaderSize: nat := 12
  /** The separator strings.Join puts between labels. */
  const Dot: Byte := 0x2E

  /** A label as it can appear on the wire: 1 to 255 octets behind its length octet. */
  type Label = l: seq<Byte> | 0 < |l| < 0x100 witness [0]

  /** What parseQuery returns: the dotted name (a Go string, i.e. octets) and the type code. */
  datatype Question = Question(name: seq<Byte>, qtype: Uint16)

  /** Wire form of a sequence of labels, without the terminating zero octet. */
  function EncodeName(labels: seq<Label>): seq<Byte>
  {
    if labels == [] then []
    else
      var n: Byte := |labels[0]|;
      [n] + labels[0] + EncodeName(labels[1..])
  }

  /** strings.Join */
  function Join(parts: seq<seq<Byte>>, sep: Byte): seq<Byte>
  {
    if |parts| == 0 then []
    else if |parts| == 1 then parts[0]
    else parts[0] + [sep] + Join(parts[1..], sep)
  }

  /** The labels the walk collects from offset i on, and the offset it stops at. */
  datatype Walk = Walk(labels: seq<Label>, stop: nat)

  /**
   * The label walk of parseQuery from offset i: it ends past a zero length
   * octet, at the end of the packet, or at a length octet that claims more
   * octets than remain (that octet is not consumed).
   */
  function WalkLabels(p: seq<Byte>, i: nat): Walk
    decreases |p| - i
  {
    if i >= |p| then Walk([], i)
    else if p[i] == 0 then Walk([], i + 1)
    else if i + 1 + p[i] > |p| then Walk([], i)
    else
      var rest := WalkLabels(p, i + 1 + p[i]);
      Walk([p[i + 1 .. i + 1 + p[i]]] + rest.labels, rest.stop)
  }

  /** The question parseQuery extracts from a packet. */
  function QueryOf(p: seq<Byte>): Question
  {
    var w := WalkLabels(p, HeaderSize);
    Question(Join(w.labels, Dot),
             if w.stop + 2 <= |p| then BE16(p[w.stop], p[w.stop + 1]) else 0)
  }

  /** parseQuery: a cursor loop that appends each label and stops defensively. */
  method ParseQuery(packet: seq<Byte>) returns (qname: seq<Byte>, qtype: Uint16)
    ensures Question(qname, qtype) == QueryOf(packet)
  {
    var qnameParts: seq<Label> := [];
    var i: nat := HeaderSize;
    while i < |packet|
      invariant HeaderSize <= i
      invariant qnameParts + WalkLabels(packet, i).labels == WalkLabels(packet, HeaderSize).labels
      invariant WalkLabels(packet, i).stop == WalkLabels(packet, HeaderSize).stop
      decreases |packet| - i
    {
      var length := packet[i];
      if length == 0 {
        i := i + 1;
        break;
      }
      if i + 1 + length > |packet| {
        break;
      }
      ghost var next := i + 1 + length;
      var part: Label := packet[i + 1 .. i + 1 + length];
      assert WalkLabels(packet, i) == Walk([part] + WalkLabels(packet, next).labels, WalkLabels(packet, next).stop);
      assert (qnameParts + [part]) + WalkLabels(packet, next).labels == qnameParts + WalkLabels(packet, i).labels;
      qnameParts := qnameParts + [part];
      i := i + length + 1;
    }
    assert qnameParts == WalkLabels(packet, HeaderSize).labels;
    assert i == WalkLabels(packet, HeaderSize).stop;
    qname := Join(qnameParts, Dot);
    qtype := 0;
    if i + 2 <= |packet| {
      qtype := BE16(packet[i], packet[i + 1]);
    }
  }

  /** The labels are encoded, each behind its length octet, from offset i of p on. */
  predicate NameAt(p: seq<Byte>, i: nat, labels: seq<Label>)
    decreases labels
  {
    labels == [] ||
    (i + 1 + |labels[0]| <= |p| && p[i] == |labels[0]| &&
     p[i + 1 .. i + 1 + |labels[0]|] == labels[0] &&
     NameAt(p, i + 1 + |labels[0]|, labels[1..]))
  }

  /** An encoded name placed in a packet is found where it was placed. */
  lemma {:induction false} NameAtConcat(pre: seq<Byte>, labels: seq<Label>, post: seq<Byte>)
    ensures NameAt(pre + EncodeName(labels) + post, |pre|, labels)
    decreases labels
  {
    if labels != [] {
      var l := labels[0];
      var n: Byte := |l|;
      var p := pre + EncodeName(labels) + post;
      var pre' := pre + [n] + l;
      var j := |pre| + 1 + |l|;
      assert p == pre' + EncodeName(labels[1..]) + post;
      NameAtConcat(pre', labels[1..], post);
      assert |pre'| == j;
      assert NameAt(p, j, labels[1..]);
      assert p[|pre|] == n;
      assert p[|pre| + 1 .. j] == l;
    }
  }

  /** An encoded name fits in the packet that holds it. */
  lemma {:induction false} NameAtFits(p: seq<Byte>, i: nat, labels: seq<Label>)
    requires i <= |p| && NameAt(p, i, labels)
    ensures i + |EncodeName(labels)| <= |p|
    decreases labels
  {
    if labels != [] {
      var l := labels[0];
      var n: Byte := |l|;
      var j := i + 1 + |l|;
      NameAtFits(p, j, labels[1..]);
      assert EncodeName(labels) == [n] + l + EncodeName(labels[1..]);
      assert i + |EncodeName(labels)| == j + |EncodeName(labels[1..])|;
    }
  }

  lemma ConsAppend<T>(xs: seq<T>, ys: seq<T>)
    requires xs != []
    ensures [xs[0]] + (xs[1..] + ys) == xs + ys
  {
    assert xs == [xs[0]] + xs[1..];
  }

  /** Walking over an encoded name collects its labels and resumes right after it. */
  lemma {:induction false} WalkOverName(p: seq<Byte>, i: nat, labels: seq<Label>)
    requires NameAt(p, i, labels)
    ensures WalkLabels(p, i).labels == labels + WalkLabels(p, i + |EncodeName(labels)|).labels
    ensures WalkLabels(p, i).stop == WalkLabels(p, i + |EncodeName(labels)|).stop
    decreases labels
  {
    var after := WalkLabels(p, i + |EncodeName(labels)|);
    if labels == [] {
      assert labels + after.labels == after.labels;
    } else {
      var l := labels[0];
      var j := i + 1 + |l|;
      var e := j + |EncodeName(labels[1..])|;
      assert i + |EncodeName(labels)| == e;
      assert after == WalkLabels(p, e);
      WalkOverName(p, j, labels[1..]);
      var rest := WalkLabels(p, j);
      assert i + 1 + p[i] == j;
      assert WalkLabels(p, i) == Walk([l] + rest.labels, rest.stop);
      ConsAppend(labels, after.labels);
    }
  }

  /** Why a walk that has consumed the octets up to e stops at offset stop. */
  predicate StopsAt(p: seq<Byte>, e: nat, stop: nat)
  {
    (e < |p| && p[e] == 0 && stop == e + 1) ||
    (stop == e && (e == |p| || (e < |p| && p[e] != 0 && e + 1 + p[e] > |p|)))
  }

  /**
   * Conversely, whatever the walk collects is a name encoded at its start, and
   * it stopped right after it for one of the three reasons of parseQuery.
   */
  lemma {:induction false} WalkReadsEncodedName(p: seq<Byte>, i: nat)
    requires i <= |p|
    ensures NameAt(p, i, WalkLabels(p, i).labels)
    ensures StopsAt(p, i + |EncodeName(WalkLabels(p, i).labels)|, WalkLabels(p, i).stop)
    decreases |p| - i
  {
    if i < |p| && p[i] != 0 && i + 1 + p[i] <= |p| {
      var j := i + 1 + p[i];
      var rest := WalkLabels(p, j).labels;
      WalkReadsEncodedName(p, j);
      var labels := WalkLabels(p, i).labels;
      assert labels[0] == p[i + 1 .. j] && labels[1..] == rest;
    }
  }

  /** The joined name is one octet shorter than the encoded labels (it has no leading length octet). */
  lemma {:induction false} JoinedLength(labels: seq<Label>)
    ensures |Join(labels, Dot)| + (if labels == [] then 0 else 1) == |EncodeName(labels)|
  {
    if |labels| > 1 {
      JoinedLength(labels[1..]);
    }
  }

  /**
   * Round trip: a header, labels each behind a non-zero length octet, a zero
   * octet and BE16(t) parse back to the labels joined by "." and to t, whatever
   * follows the type.
   */
  lemma QueryRoundTrip(header: seq<Byte>, labels: seq<Label>, qtype: Uint16, rest: seq<Byte>)
    requires |header| == HeaderSize
    ensures QueryOf(header + EncodeName(labels) + [0] + BE16Bytes(qtype) + rest)
            == Question(Join(labels, Dot), qtype)
  {
    var t := BE16Bytes(qtype);
    var p := header + EncodeName(labels) + [0] + t + rest;
    var e := HeaderSize + |EncodeName(labels)|;
    assert p == header + EncodeName(labels) + ([0] + t + rest);
    NameAtConcat(header, labels, [0] + t + rest);
    WalkOverName(p, HeaderSize, labels);
    assert p[e] == 0 && p[e + 1] == t[0] && p[e + 2] == t[1];
    assert labels + [] == labels;
  }

  /** A packet no longer than the header yields the empty name and type 0. */
  lemma ShortPacketHasEmptyQuestion(p: seq<Byte>)
    requires |p| <= HeaderSize
    ensures QueryOf(p) == Question([], 0)
  {
  }

  /**
   * A length octet that overruns the packet ends the walk with the labels read
   * so far, and the type is then read from that length octet and the one after
   * it, when both are present.
   */
  lemma OverrunKeepsLabels(header: seq<Byte>, labels: seq<Label>, n: Byte, rest: seq<Byte>)
    requires |header| == HeaderSize
    requires n != 0 && n > |rest|
    ensures QueryOf(header + EncodeName(labels) + [n] + rest)
            == Question(Join(labels, Dot), if |rest| >= 1 then BE16(n, rest[0]) else 0)
  {
    var p := header + EncodeName(labels) + [n] + rest;
    var e := HeaderSize + |EncodeName(labels)|;
    assert p == header + EncodeName(labels) + ([n] + rest);
    NameAtConcat(header, labels, [n] + rest);
    WalkOverName(p, HeaderSize, labels);
    assert p[e] == n;
    assert labels + [] == labels;
    if |rest| >= 1 {
      assert p[e + 1] == rest[0];
    }
  }

  /** Running off the end of the packet without a zero terminator gives type 0. */
  lemma UnterminatedNameHasTypeZero(header: seq<Byte>, labels: seq<Label>)
    requires |header| == HeaderSize
    ensures QueryOf(header + EncodeName(labels)) == Question(Join(labels, Dot), 0)
  {
    var p := header + EncodeName(labels);
    assert p == header + EncodeName(labels) + [];
    NameAtConcat(header, labels, []);
    WalkOverName(p, HeaderSize, labels);
    assert labels + [] == labels;
  }

  /** The joined name never exceeds the octets that follow the header. */
  lemma NameFitsPacket(p: seq<Byte>)
    ensures |QueryOf(p).name| <= if |p| > HeaderSize then |p| - HeaderSize else 0
  {
    if |p| >= HeaderSize {
      var labels := WalkLabels(p, HeaderSize).labels;
      WalkReadsEncodedName(p, HeaderSize);
      NameAtFits(p, HeaderSize, labels);
      JoinedLength(labels);
    }
  }
}
