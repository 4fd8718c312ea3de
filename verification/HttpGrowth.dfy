/** How much a request head grows when it is rewritten. */
module HttpGrowth {
  import opened Bytes
  import opened Packet
  import opened Text
  import opened HttpRewrite
  import HttpForm

  /** The length of the run of CRs a string ends in. */
  ghost function CrsAtEnd(t: Octets): nat {
    if t != [] && t[|t| - 1] == '\r' then 1 + CrsAtEnd(t[..|t| - 1]) else 0
  }

  /** The bytes of the lines the walk leaves out, line ends included. */
  ghost function DroppedBytes(head: Octets, s: nat, end: nat): nat
    requires end + 2 == |head|
    decreases end - s
  {
    if s >= end then 0
    else
      var e := LineEnd(head, s, end);
      (if Dropped(head[s..e]) then e + 2 - s else 0) + DroppedBytes(head, e + 2, end)
  }

  /** The walk from s runs over the end of the header block: it pairs each CR with the byte after it, so after an
      even number of CRs before the last LF but one it takes that LF for the start of one more line. */
  ghost predicate Overruns(head: Octets, s: nat) {
    s + 3 <= |head| && CrsAtEnd(head[s..|head| - 3]) % 2 == 0
  }

  /** The run seen from index m on: all of it, unless it reaches down to m. */
  lemma {:induction false} CrsAbove(t: Octets, m: nat)
    requires m <= |t|
    ensures CrsAtEnd(t) == CrsAtEnd(t[m..]) + (if CrsAtEnd(t[m..]) == |t| - m then CrsAtEnd(t[..m]) else 0)
    ensures CrsAtEnd(t[m..]) <= |t| - m
    decreases |t|
  {
    if m == |t| {
      assert t[m..] == [] && t[..m] == t;
    } else {
      var n := |t| - 1;
      CrsAbove(t[..n], m);
      assert t[m..][..n - m] == t[..n][m..] && t[..n][..m] == t[..m];
    }
  }

  /** Stepping over the first CR and the byte after it keeps the parity of the run. */
  lemma CrsParity(t: Octets, k: nat)
    requires k + 2 <= |t| && t[k] == '\r' && forall i :: 0 <= i < k ==> t[i] != '\r'
    ensures CrsAtEnd(t) % 2 == CrsAtEnd(t[k + 2..]) % 2
  {
    hide CrsAtEnd;
    CrsAbove(t, k + 2);
    EvenPair(t[..k + 2]);
  }

  lemma EvenPair(u: Octets)
    requires |u| >= 2 && u[|u| - 2] == '\r' && forall i :: 0 <= i < |u| - 2 ==> u[i] != '\r'
    ensures CrsAtEnd(u) % 2 == 0
  {
    if u[|u| - 1] == '\r' {
      OneCr(u[..|u| - 1]);
    }
  }

  lemma OneCr(t: Octets)
    requires t != [] && t[|t| - 1] == '\r' && forall i :: 0 <= i < |t| - 1 ==> t[i] != '\r'
    ensures CrsAtEnd(t) == 1
  {
  }

  ghost function Walked(head: Octets, s: nat, end: nat): nat
    requires end + 2 == |head|
  {
    |CopyLines(head, s, end)| + DroppedBytes(head, s, end)
  }

  /** Each line is copied or left out, with the CR that ends it and the byte after. */
  lemma WalkStep(head: Octets, s: nat, end: nat)
    requires end + 2 == |head|
    ensures s >= end ==> Walked(head, s, end) == 0
    ensures s < end ==> var e := LineEnd(head, s, end);
                        Walked(head, s, end) == e + 2 - s + Walked(head, e + 2, end)
  {
    hide Dropped, LineEnd;
  }

  /** What the walk copies and leaves out is the header block, and two bytes more if it runs over. */
  lemma {:induction false} WalkLength(head: Octets, s: nat, end: nat)
    requires end + 2 == |head| && 2 <= end && s < end && head[end - 2] == '\r' && head[end - 1] != '\r'
    ensures Walked(head, s, end) == end - s + if Overruns(head, s) then 2 else 0
    decreases end - s
  {
    hide Walked, CrsAtEnd;
    WalkStep(head, s, end);
    var t, e := head[s..end - 1], LineEnd(head, s, end);
    WalkStep(head, e + 2, end);
    if s == end - 1 {
      NoCrs();
    } else if e == end - 2 {
      OneCr(t);
    } else {
      WalkLength(head, e + 2, end);
      CrsParity(t, e - s);
      assert t[e - s + 2..] == head[e + 2..end - 1];
    }
  }

  lemma NoCrs()
    ensures CrsAtEnd([]) == 0
  {
  }

  lemma TailLength()
    ensures |TAIL| == 46
  {
  }

  lemma AssembledLength(head: Octets, target: nat, le: nat, ip: Ip4)
    requires target < le && le + 4 <= |head| && head[|head| - 4] == '\r' && head[|head| - 3] == '\n'
    ensures |Assembled(head, target, le, ip)| + DroppedBytes(head, le + 2, |head| - 2)
         == |head| + 44 + (if head[target] == '/' then 7 + |HostFor(head, le + 2, ip)| else 0)
            + (if Overruns(head, le + 2) then 2 else 0)
  {
    hide CopyLines, HostFor, HostOk, TAIL, DroppedBytes;
    TailLength();
    assert |HTTP| == 7;
    if le + 4 < |head| {
      WalkLength(head, le + 2, |head| - 2);
    } else {
      WalkStep(head, le + 2, |head| - 2);
    }
  }

  lemma LineThere(head: Octets, ip: Ip4)
    requires IsHead(head) && Rewritten(head, ip).Some?
    ensures RequestLine(head).Some?
  {
    hide RequestLine, IsHead, Assembled;
  }

  lemma BlockEnds(head: Octets)
    requires IsHead(head) && RequestLine(head).Some?
    ensures RequestLine(head).value.2 + 4 <= |head| && head[|head| - 4] == '\r' && head[|head| - 3] == '\n'
  {
    assert BlankAt(head, |head| - 4);
    RequestLineParts(head);
  }

  /** How much any head grows, exactly. */
  lemma {:induction false} Growth(head: Octets, ip: Ip4)
    requires IsHead(head) && Rewritten(head, ip).Some?
    ensures var (sp1, _, le) := RequestLine(head).value;
            |Rewritten(head, ip).value| + DroppedBytes(head, le + 2, |head| - 2)
            == |head| + 44 + (if head[sp1 + 1] == '/' then 7 + |HostFor(head, le + 2, ip)| else 0)
               + (if Overruns(head, le + 2) then 2 else 0)
  {
    hide RequestLine, Rewritten, Assembled, DroppedBytes, HostFor, Overruns;
    LineThere(head, ip);
    BlockEnds(head);
    HttpForm.RewrittenIs(head, ip);
    hide IsHead;
    var (sp1, _, le) := RequestLine(head).value;
    AssembledLength(head, sp1 + 1, le, ip);
  }

  /** A head grows by at most 130 bytes, or 132 if it ends in CR CRLF CRLF. */
  lemma {:induction false} GrowthBound(head: Octets, ip: Ip4)
    requires IsHead(head) && Rewritten(head, ip).Some?
    ensures |Rewritten(head, ip).value| <= |head| + if head[|head| - 5] == '\r' then 132 else 130
  {
    hide RequestLine, IsHead, Rewritten, DroppedBytes, HostFor, HostOk, CrsAtEnd;
    LineThere(head, ip);
    Growth(head, ip);
    BlockEnds(head);
    var le := RequestLine(head).value.2;
    if head[|head| - 5] != '\r' && le + 4 < |head| {
      LoneCr(head[le + 2..|head| - 3]);
    }
  }

  lemma LoneCr(t: Octets)
    requires t != [] && t[|t| - 1] == '\r' && (|t| > 1 ==> t[|t| - 2] != '\r')
    ensures CrsAtEnd(t) == 1
  {
  }

  /** It grows by more than 130 bytes exactly when the walk runs over, the target is in origin form, and the host
      is longer by 78 bytes or more than what is left out. */
  lemma {:induction false} GrowthExceedsExactlyWhen(head: Octets, ip: Ip4)
    requires IsHead(head) && Rewritten(head, ip).Some?
    ensures var (sp1, _, le) := RequestLine(head).value;
            |Rewritten(head, ip).value| > |head| + 130
            <==> Overruns(head, le + 2) && head[sp1 + 1] == '/'
                 && |HostFor(head, le + 2, ip)| >= 78 + DroppedBytes(head, le + 2, |head| - 2)
  {
    hide IsHead, Rewritten, RequestLine, DroppedBytes, Overruns;
    LineThere(head, ip);
    Growth(head, ip);
  }

  // ---------------------------------------------------------------- a head that grows by 132 bytes

  const FRONT: Octets := "G / H"
  const HOST_FIELD: Octets := "host:"
  const CR: Octets := "\r"

  /** A head with a host of the longest length the rewriter takes, and a bare CR before its last CRLF CRLF. */
  function LongHostHead(host: Octets): Octets {
    FRONT + CRLF + HOST_FIELD + host + CR + CRLF + CRLF
  }

  lemma LongHostShape(host: Octets)
    requires |host| == 79
    ensures var head := LongHostHead(host);
            && |head| == 96
            && (forall k :: 0 <= k < 12 ==> head[k] == (FRONT + CRLF + HOST_FIELD)[k])
            && (forall k :: 12 <= k < 91 ==> head[k] == host[k - 12])
            && (forall k :: 91 <= k < 96 ==> head[k] == (CR + CRLF + CRLF)[k - 91])
  {
    var a, c := FRONT + CRLF + HOST_FIELD, CR + CRLF + CRLF;
    assert LongHostHead(host) == a + host + c;
    assert |a| == 12 && |c| == 5;
  }

  lemma LongHostBytes(host: Octets)
    requires |host| == 79 && HostOk(host)
    ensures var head := LongHostHead(host);
            && |head| == 96
            && (forall i :: 0 <= i < 96 ==> (head[i] == '\r' <==> i in {5, 91, 92, 94}))
            && head[1] == ' ' && head[2] == '/' && head[3] == ' ' && head[0] != ' '
            && head[7..91] == HOST_FIELD + host
            && head[93] == head[95] == '\n'
  {
    var head := LongHostHead(host);
    var a, c := FRONT + CRLF + HOST_FIELD, CR + CRLF + CRLF;
    LongHostShape(host);
    assert |a| == 12 && |c| == 5;
    assert forall k :: 0 <= k < 12 ==> (a[k] == '\r' <==> k == 5);
    assert forall k :: 0 <= k < 5 ==> (c[k] == '\r' <==> k in {0, 1, 3});
    assert a[7..] == HOST_FIELD;
    hide LongHostHead;
    assert forall k :: 12 <= k < 91 ==> head[k] != '\r';
  }

  lemma HostIsPlain(host: Octets)
    requires HostOk(host)
    ensures Trim(host) == host && CStr(host) == host
  {
    assert HostChar(host[0]) && HostChar(host[|host| - 1]);
    assert TrimLeft(host) == host;
    IndexIs(host, '\0', 0, |host|, |host|);
  }

  lemma LongHostColon(host: Octets)
    ensures ColonIn(HOST_FIELD + host) == 4 && Lower((HOST_FIELD + host)[..4]) == "host"
    ensures (HOST_FIELD + host)[5..] == host
  {
    var line := HOST_FIELD + host;
    IndexIs(line, ':', 0, |line|, 4);
  }

  lemma LongHostValue(host: Octets)
    requires |host| == 79 && HostOk(host)
    ensures HostAfter(HOST_FIELD + host, []) == host
  {
    LongHostColon(host);
    HostIsPlain(host);
    hide HostOk, CStr, ColonIn, Trim;
    assert FieldValue(HOST_FIELD + host) == host;
  }

  lemma LongHostKept(host: Octets)
    ensures !Dropped(HOST_FIELD + host)
  {
    LongHostColon(host);
    hide ColonIn;
  }

  lemma LineFeedLine(host: Octets)
    ensures HostAfter(['\n'], host) == host && !Dropped(['\n'])
  {
    IndexIs(['\n'], ':', 0, 1, 1);
  }

  lemma LongHostEnds(host: Octets)
    requires |host| == 79 && HostOk(host)
    ensures var head := LongHostHead(host);
            && |head| == 96 && LineEnd(head, 7, 94) == 91 && LineEnd(head, 93, 94) == 94
            && head[7..91] == HOST_FIELD + host && head[93..94] == ['\n']
  {
    var head := LongHostHead(host);
    LongHostBytes(host);
    hide LongHostHead;
    IndexIs(head, '\r', 7, 94, 91);
    IndexIs(head, '\r', 93, 94, 94);
  }

  lemma LongHostScan(host: Octets)
    requires |host| == 79 && HostOk(host)
    ensures |LongHostHead(host)| == 96 && ScanHost(LongHostHead(host), 7, 94, []) == host
  {
    var head := LongHostHead(host);
    LongHostEnds(host);
    LongHostValue(host);
    LineFeedLine(host);
    hide LongHostHead, HostAfter, HostOk, LineEnd;
    assert ScanHost(head, 93, 94, host) == ScanHost(head, 96, 94, HostAfter(['\n'], host));
    assert ScanHost(head, 7, 94, []) == ScanHost(head, 93, 94, HostAfter(HOST_FIELD + host, []));
  }

  lemma LongHostCopy(host: Octets)
    requires |host| == 79 && HostOk(host)
    ensures |LongHostHead(host)| == 96 && |CopyLines(LongHostHead(host), 7, 94)| == 89
  {
    var head := LongHostHead(host);
    LongHostEnds(host);
    LongHostKept(host);
    LineFeedLine(host);
    hide LongHostHead, Dropped, HostOk, LineEnd;
    assert CopyLines(head, 93, 94) == head[93..96] + CopyLines(head, 96, 94);
    assert CopyLines(head, 7, 94) == head[7..93] + CopyLines(head, 93, 94);
  }

  lemma LongHostLine(host: Octets)
    requires |host| == 79 && HostOk(host)
    ensures var head := LongHostHead(host);
            |head| == 96 && IsHead(head) && RequestLine(head) == Some((1, 3, 5)) && head[2] == '/'
  {
    var head := LongHostHead(host);
    LongHostBytes(host);
    hide LongHostHead;
    assert BlankAt(head, 92);
    IndexIs(head, '\r', 0, 96, 5);
    IndexIs(head, ' ', 0, 5, 1);
    IndexIs(head, ' ', 2, 5, 3);
  }

  /** The 132 bytes of GrowthBound are reached. */
  lemma GrowthReached(host: Octets, ip: Ip4)
    requires |host| == 79 && HostOk(host)
    ensures var head := LongHostHead(host);
            IsHead(head) && Rewritten(head, ip).Some? && |Rewritten(head, ip).value| == |head| + 132
  {
    var head := LongHostHead(host);
    LongHostLine(host);
    LongHostScan(host);
    LongHostCopy(host);
    hide LongHostHead, ScanHost, CopyLines, IsHead, RequestLine;
    assert HostFor(head, 7, ip) == host;
    assert |FrontOf(head, 2, 5, host)| == 7 + 86;
    assert |TAIL| == 46;
  }
}
