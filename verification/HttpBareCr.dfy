/** Where the code's split on CR alone differs from lines: when the rewritten head ends too early. */
module HttpBareCr {
  import opened Bytes
  import opened Packet
  import opened Text
  import opened HttpRewrite
  import opened HttpForm

  // ---------------------------------------------------------------- pieces between CRs

  /** What the walk cuts a head into: text without CR, a CR, and whatever byte follows. */
  ghost predicate IsPiece(p: Octets) {
    |p| >= 2 && p[|p| - 2] == '\r' && NoCr(p[..|p| - 2])
  }

  ghost predicate ArePieces(ps: seq<Octets>) { forall i :: 0 <= i < |ps| ==> IsPiece(ps[i]) }

  ghost function Joined(ps: seq<Octets>): Octets {
    if ps == [] then [] else ps[0] + Joined(ps[1..])
  }

  /** The pieces the walk keeps of the header lines. */
  ghost function Kept(head: Octets, s: nat, end: nat): seq<Octets>
    requires end + 2 == |head|
    decreases end - s
  {
    if s >= end then []
    else
      var e := LineEnd(head, s, end);
      (if Dropped(head[s..e]) then [] else [head[s..e + 2]]) + Kept(head, e + 2, end)
  }

  const CR_CR: Octets := "\r\r"
  const LF_CRLF: Octets := "\n\r\n"

  /** Two pieces that make a blank line where they meet: a line end and an empty line, or a doubled CR whose second
      one meets an LF. */
  ghost predicate Clash(p: Octets, q: Octets)
    requires |p| >= 2
  {
    (p[|p| - 2..] == CRLF && q == CRLF) || (p[|p| - 2..] == CR_CR && q == LF_CRLF)
  }

  ghost predicate ClashAt(ps: seq<Octets>, k: nat) {
    k + 1 < |ps| && |ps[k]| >= 2 && Clash(ps[k], ps[k + 1])
  }

  ghost predicate Clashes(ps: seq<Octets>) { exists k: nat :: ClashAt(ps, k) }

  lemma JoinedFirst(p: Octets, rest: seq<Octets>)
    ensures Joined([p] + rest) == p + Joined(rest)
    ensures IsPiece(p) && ArePieces(rest) ==> ArePieces([p] + rest)
  {
    hide IsPiece;
    assert ([p] + rest)[1..] == rest;
  }

  /** One line of the walk. */
  lemma KeptStep(head: Octets, s: nat, end: nat)
    requires end + 2 == |head| && s < end
    ensures var e := LineEnd(head, s, end);
            if Dropped(head[s..e]) then
              CopyLines(head, s, end) == CopyLines(head, e + 2, end) && Kept(head, s, end) == Kept(head, e + 2, end)
            else
              && CopyLines(head, s, end) == head[s..e + 2] + CopyLines(head, e + 2, end)
              && Kept(head, s, end) == [head[s..e + 2]] + Kept(head, e + 2, end)
  {
    hide Dropped, LineEnd;
  }

  lemma {:induction false} KeptJoined(head: Octets, s: nat, end: nat)
    requires end + 2 == |head| && head[end] == '\r'
    ensures CopyLines(head, s, end) == Joined(Kept(head, s, end)) && ArePieces(Kept(head, s, end))
    decreases end - s
  {
    hide Dropped, Joined, ArePieces, LineEnd, CopyLines, Kept;
    if s < end {
      var e := LineEnd(head, s, end);
      KeptJoined(head, e + 2, end);
      KeptStep(head, s, end);
      SegmentIsPiece(head, s, end);
      JoinedFirst(head[s..e + 2], Kept(head, e + 2, end));
    } else {
      NothingKept(head, s, end);
    }
  }

  lemma NothingKept(head: Octets, s: nat, end: nat)
    requires end + 2 == |head| && s >= end
    ensures CopyLines(head, s, end) == [] && Kept(head, s, end) == [] && Joined([]) == [] && ArePieces([])
  {
  }

  lemma SegmentIsPiece(head: Octets, s: nat, end: nat)
    requires end + 2 == |head| && head[end] == '\r' && s < end
    ensures IsPiece(head[s..LineEnd(head, s, end) + 2])
  {
    var e := LineEnd(head, s, end);
    assert head[s..e + 2][..e - s] == head[s..e];
  }

  /** A piece in front of a text adds a blank line exactly where its CRs meet the text. */
  lemma BlankAcross(p: Octets, t: Octets, i: int)
    requires IsPiece(p) && |t| >= 3 && 0 <= i < |p|
    ensures BlankAt(p + t, i)
       <==> || (i == |p| - 2 && p[|p| - 1] == '\n' && t[0] == '\r' && t[1] == '\n')
            || (i == |p| - 1 && p[i] == '\r' && t[0] == '\n' && t[1] == '\r' && t[2] == '\n')
  {
    var u := p + t;
    if i < |p| - 2 {
      assert p[..|p| - 2][i] != '\r' && u[i] == p[i];
    } else if i == |p| - 2 {
      assert u[i] == '\r' && u[i + 1] == p[i + 1] && u[i + 2] == t[0] && u[i + 3] == t[1];
    } else {
      assert u[i] == p[i] && u[i + 1] == t[0] && u[i + 2] == t[1] && u[i + 3] == t[2];
    }
  }

  /** How a text that begins with a piece begins. */
  lemma PieceStart(q: Octets, t: Octets)
    requires IsPiece(q) && |q + t| >= 3
    ensures (q + t)[0] == '\r' && (q + t)[1] == '\n' <==> q == CRLF
    ensures (q + t)[0] == '\n' && (q + t)[1] == '\r' && (q + t)[2] == '\n' <==> q == LF_CRLF
  {
    if |q| > 2 {
      assert q[..|q| - 2][0] != '\r';
    }
    if |q| > 3 {
      assert q[..|q| - 2][1] != '\r';
    }
  }

  lemma TailBlank(i: int)
    ensures |TAIL| == 46 && (BlankAt(TAIL, i) <==> i == 42) && TAIL[0] == 'C'
  {
    var t := CONNECTION + CLOSE + CRLF + PROXY_CONNECTION + CLOSE;
    assert TAIL == t + CRLF + CRLF && |t| == 42;
    assert forall k :: 0 <= k < 42 ==> (t[k] == '\r' <==> k == 17);
    assert t[19] == 'P';
  }

  ghost predicate BlankWithin(s: Octets, n: nat) { exists i :: 0 <= i < n && BlankAt(s, i) }

  /** Where a piece meets the pieces after it, or the tail, a blank line arises exactly if it clashes. */
  lemma Seam(p: Octets, rest: seq<Octets>)
    requires IsPiece(p) && ArePieces(rest)
    ensures BlankWithin(p + (Joined(rest) + TAIL), |p|) <==> rest != [] && Clash(p, rest[0])
  {
    hide BlankAt, TAIL;
    var t := Joined(rest) + TAIL;
    TailBlank(0);
    if rest == [] {
      assert t == TAIL;
    } else {
      var u := Joined(rest[1..]) + TAIL;
      assert t == rest[0] + u;
      PieceStart(rest[0], u);
    }
    BlankAcross(p, t, |p| - 2);
    BlankAcross(p, t, |p| - 1);
    forall i | 0 <= i < |p| - 2
      ensures !BlankAt(p + t, i)
    {
      BlankAcross(p, t, i);
    }
    if rest != [] {
      ClashIs(p, rest[0]);
    }
    hide Clash;
    if BlankWithin(p + t, |p|) {
      var i :| 0 <= i < |p| && BlankAt(p + t, i);
      assert i == |p| - 2 || i == |p| - 1;
    }
  }

  lemma ClashIs(p: Octets, q: Octets)
    requires IsPiece(p)
    ensures Clash(p, q) <==> if p[|p| - 1] == '\n' then q == CRLF else p[|p| - 1] == '\r' && q == LF_CRLF
  {
    assert p[|p| - 2..] == [p[|p| - 2], p[|p| - 1]];
  }

  lemma TailIsHead()
    ensures IsHead(TAIL)
  {
    hide TAIL;
    forall i
      ensures BlankAt(TAIL, i) <==> i == 42
    {
      TailBlank(i);
    }
    TailBlank(0);
  }

  /** Pieces and then the fixed tail: the first blank line is the end exactly when no two neighbours clash. */
  lemma {:induction false} JoinedBlank(ps: seq<Octets>)
    requires ArePieces(ps)
    ensures IsHead(Joined(ps) + TAIL) <==> !Clashes(ps)
  {
    hide IsHead, IsPiece, Clash, TAIL;
    TailIsHead();
    if ps == [] {
      assert Joined(ps) + TAIL == TAIL;
    } else {
      var p, rest := ps[0], ps[1..];
      var t := Joined(rest) + TAIL;
      JoinedBlank(rest);
      TailBlank(0);
      assert Joined(ps) + TAIL == p + t;
      SplitHead(p, t);
      Seam(p, rest);
      PieceLength(p);
      ClashesSplit(ps);
    }
  }

  lemma PieceLength(p: Octets)
    requires IsPiece(p)
    ensures |p| >= 2
  {
  }

  lemma ClashesSplit(ps: seq<Octets>)
    requires ps != []
    ensures Clashes(ps) <==> ClashAt(ps, 0) || Clashes(ps[1..])
  {
    forall k: nat
      ensures ClashAt(ps[1..], k) <==> ClashAt(ps, k + 1)
    {
    }
    if Clashes(ps) && !ClashAt(ps, 0) {
      var k: nat :| ClashAt(ps, k);
      assert ClashAt(ps[1..], k - 1);
    }
    if Clashes(ps[1..]) {
      var k: nat :| ClashAt(ps[1..], k);
      assert ClashAt(ps, k + 1);
    }
  }

  /** With a piece in front a head stays one unless a blank line arises at the seam. */
  lemma SplitHead(p: Octets, t: Octets)
    requires IsPiece(p) && |t| >= 4
    ensures IsHead(p + t)
       <==> IsHead(t) && !BlankWithin(p + t, |p|)
  {
    forall i | |p| <= i
      ensures BlankAt(p + t, i) <==> BlankAt(t, i - |p|)
    {
    }
    assert BlankAt(p + t, |p + t| - 4) <==> BlankAt(t, |t| - 4);
    if IsHead(p + t) {
      forall j | 0 <= j < |t| - 4
        ensures !BlankAt(t, j)
      {
        assert !BlankAt(p + t, j + |p|);
      }
    }
  }

  /** The request line as written is a piece like the one read: it ends in the same two bytes. */
  lemma FrontIsPiece(head: Octets, target: nat, le: nat, host: Octets)
    requires target <= le && le + 2 <= |head| && NoCr(head[..le]) && head[le] == '\r' && HostOk(host)
    ensures IsPiece(FrontOf(head, target, le, host))
    ensures var f := FrontOf(head, target, le, host);
            f[|f| - 2..] == head[..le + 2][le..]
  {
    var f := FrontOf(head, target, le, host);
    var scheme := Scheme(head[target..le], host);
    assert NoCr(scheme) by {
      assert forall i :: 0 <= i < |host| ==> HostChar(host[i]);
      assert NoCr(HTTP);
    }
    assert f == head[..target] + scheme + head[target..le] + head[le..le + 2];
    assert forall i :: 0 <= i < le ==> head[..le][i] == head[i];
    assert f[..|f| - 2] == head[..target] + scheme + head[target..le];
  }

  /** Only the last two bytes of a piece matter for a clash with the next. */
  lemma SameClashes(p: Octets, p': Octets, rest: seq<Octets>)
    requires |p| >= 2 && |p'| >= 2 && p[|p| - 2..] == p'[|p'| - 2..]
    ensures Clashes([p] + rest) <==> Clashes([p'] + rest)
  {
    ClashesSplit([p] + rest);
    ClashesSplit([p'] + rest);
    assert ([p] + rest)[1..] == rest && ([p'] + rest)[1..] == rest;
  }

  /** On any head whatever, the rewritten head ends at its own first blank line exactly when, of the pieces kept,
      the request line included, no two neighbours clash. */
  lemma {:induction false} EndsItselfExactlyWhen(head: Octets, ip: Ip4)
    requires IsHead(head) && RequestLine(head).Some?
    ensures var le := RequestLine(head).value.2;
            && le + 2 <= |head| && Rewritten(head, ip).Some?
            && (IsHead(Rewritten(head, ip).value)
                <==> !Clashes([head[..le + 2]] + Kept(head, le + 2, |head| - 2)))
  {
    hide RequestLine, CopyLines, HostFor, FrontOf, TAIL, Clashes, IsPiece, Kept, HostOk;
    RewrittenIs(head, ip);
    RequestLineParts(head);
    LastCr(head);
    hide IsHead, Rewritten;
    var (sp1, _, le) := RequestLine(head).value;
    var host := HostFor(head, le + 2, ip);
    var front, kept := FrontOf(head, sp1 + 1, le, host), Kept(head, le + 2, |head| - 2);
    FrontIsPiece(head, sp1 + 1, le, host);
    KeptJoined(head, le + 2, |head| - 2);
    JoinedFirst(front, kept);
    JoinedBlank([front] + kept);
    PieceLength(front);
    SameClashes(front, head[..le + 2], kept);
  }

  lemma LastCr(head: Octets)
    requires IsHead(head)
    ensures head[|head| - 2] == '\r'
  {
    assert BlankAt(head, |head| - 4);
  }

  // ---------------------------------------------------------------- a head whose result ends early

  const FRONT: Octets := "G / H"
  const NAME: Octets := "connection:"
  const SKIP: Octets := "\rY"
  const BARE: Octets := FRONT + CRLF + NAME + SKIP + CRLF + CRLF

  lemma BareBytes()
    ensures |BARE| == 24
    ensures forall i :: 0 <= i < 24 ==> (BARE[i] == '\r' <==> i in {5, 18, 20, 22})
    ensures BARE[1] == ' ' && BARE[2] == '/' && BARE[3] == ' ' && BARE[0] != ' '
    ensures BARE[7..18] == NAME && BARE[20..22] == CRLF
    ensures BARE[21] == BARE[23] == '\n' && BARE[19] != '\n' && BARE[5..7] == CRLF
  {
  }

  lemma BareLine()
    ensures RequestLine(BARE) == Some((1, 3, 5))
  {
    BareBytes();
    hide BARE;
    IndexIs(BARE, '\r', 0, 24, 5);
    IndexIs(BARE, ' ', 0, 5, 1);
    IndexIs(BARE, ' ', 2, 5, 3);
  }

  lemma BareIsHead()
    ensures IsHead(BARE)
  {
    BareBytes();
    hide BARE;
    assert BlankAt(BARE, 20);
  }

  lemma BareFields()
    ensures |BARE| == 24 && CopyLines(BARE, 7, 22) == CRLF
  {
    BareBytes();
    hide BARE;
    IndexIs(BARE, '\r', 7, 22, 18);
    IndexIs(BARE, '\r', 20, 22, 20);
    assert Dropped(NAME) by {
      IndexIs(NAME, ':', 0, 11, 10);
      assert Lower(NAME[..10]) == "connection";
    }
    EmptyLineKept();
    hide Dropped;
    assert BARE[20..20] == [];
    assert CopyLines(BARE, 20, 22) == BARE[20..22] + CopyLines(BARE, 22, 22);
    assert CopyLines(BARE, 7, 22) == [] + CopyLines(BARE, 20, 22);
  }

  lemma EmptyLineKept()
    ensures !Dropped([])
  {
  }

  /** A bare CR in a dropped line makes the result end its head early: the code skips the byte after the CR
      along with the line, so what is left of the line is an empty one. */
  lemma BareCrSplitsHead(ip: Ip4)
    ensures IsHead(BARE) && Rewritten(BARE, ip).Some? && !IsHead(Rewritten(BARE, ip).value)
  {
    BareBytes();
    BareIsHead();
    BareLine();
    BareFields();
    hide BARE, RequestLine, CopyLines, HostFor, IsHead;
    var front := FrontOf(BARE, 2, 5, HostFor(BARE, 7, ip));
    var out := Rewritten(BARE, ip).value;
    assert out == front + CRLF + TAIL;
    assert front[|front| - 2..] == BARE[5..7] by {
      assert BARE[2..7][3..] == BARE[5..7];
    }
    EarlyBlank(front, out);
  }

  lemma EarlyBlank(front: Octets, out: Octets)
    requires |front| >= 2 && front[|front| - 2..] == CRLF && out == front + CRLF + TAIL
    ensures !IsHead(out)
  {
    assert front == front[..|front| - 2] + CRLF;
    assert BlankAt(out, |front| - 2);
    assert |TAIL| == 46;
  }
}
