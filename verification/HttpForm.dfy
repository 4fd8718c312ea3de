/** What the rewriter means, on requests rather than bytes. */
module HttpForm {
  import opened Bytes
  import opened Packet
  import opened Text
  import opened HttpRewrite

  /** A request head: method, target, version, header lines without their CRLF. */
  datatype Request = Request(verb: Octets, target: Octets, version: Octets, fields: seq<Octets>)

  ghost function Block(fields: seq<Octets>): Octets {
    if fields == [] then [] else fields[0] + CRLF + Block(fields[1..])
  }

  ghost function Print(r: Request): Octets {
    r.verb + " " + r.target + " " + r.version + CRLF + Block(r.fields) + CRLF
  }

  predicate NoCr(s: Octets) { '\r' !in s }

  ghost predicate FieldsOk(fields: seq<Octets>) {
    forall i :: 0 <= i < |fields| ==> NoCr(fields[i]) && fields[i] != []
  }

  ghost predicate WellFormed(r: Request) {
    && NoCr(r.verb) && ' ' !in r.verb
    && NoCr(r.target) && ' ' !in r.target && r.target != []
    && NoCr(r.version)
    && FieldsOk(r.fields)
  }

  // ---------------------------------------------------------------- the proxy form of a request

  ghost function Keep(fields: seq<Octets>): (r: seq<Octets>)
    ensures FieldsOk(fields) ==> FieldsOk(r)
    ensures forall i :: 0 <= i < |r| ==> !Dropped(r[i])
  {
    if fields == [] then []
    else (if Dropped(fields[0]) then [] else [fields[0]]) + Keep(fields[1..])
  }

  /** The last usable Host field. */
  ghost function LastHost(fields: seq<Octets>, host: Octets): Octets {
    if fields == [] then host else LastHost(fields[1..], HostAfter(fields[0], host))
  }

  ghost function HostOf(r: Request, ip: Ip4): Octets {
    if HostOk(LastHost(r.fields, [])) then LastHost(r.fields, []) else Dotted(ip)
  }

  const CLOSE_FIELDS: seq<Octets> := [CONNECTION + CLOSE, PROXY_CONNECTION + CLOSE]

  /** Section 3.2.2 of RFC 9112: the absolute form, one request per connection. */
  ghost function Proxied(r: Request, ip: Ip4): Request {
    r.(target := Scheme(r.target, HostOf(r, ip)) + r.target, fields := Keep(r.fields) + CLOSE_FIELDS)
  }

  // ---------------------------------------------------------------- walking a printed block

  /** One line of a block, seen by the code's walk. */
  lemma LineOfBlock(pre: Octets, fields: seq<Octets>, head: Octets)
    requires FieldsOk(fields) && fields != []
    requires head == pre + Block(fields) + CRLF
    ensures LineEnd(head, |pre|, |head| - 2) == |pre| + |fields[0]|
    ensures head[|pre|..|pre| + |fields[0]|] == fields[0]
    ensures head[|pre|..|pre| + |fields[0]| + 2] == fields[0] + CRLF
    ensures head == (pre + (fields[0] + CRLF)) + Block(fields[1..]) + CRLF
    ensures |pre| < |head| - 2
  {
    var f, e := fields[0], |pre| + |fields[0]|;
    var t := CRLF + (Block(fields[1..]) + CRLF);
    hide Block;
    Regroup(pre, f, Block(fields[1..]));
    LineBeforeCr(pre, f, t);
  }

  lemma Regroup(pre: Octets, f: Octets, b: Octets)
    ensures pre + (f + CRLF + b) + CRLF == pre + f + (CRLF + (b + CRLF))
    ensures pre + (f + CRLF + b) + CRLF == (pre + (f + CRLF)) + b + CRLF
  {
  }

  lemma LineBeforeCr(pre: Octets, f: Octets, t: Octets)
    requires NoCr(f) && |t| >= 4 && t[..2] == CRLF
    ensures var head := pre + f + t;
            && LineEnd(head, |pre|, |head| - 2) == |pre| + |f|
            && head[|pre|..|pre| + |f|] == f && head[|pre|..|pre| + |f| + 2] == f + CRLF
  {
    var head, e := pre + f + t, |pre| + |f|;
    assert forall k :: |pre| <= k < e ==> head[k] == f[k - |pre|];
    assert head[e] == t[0];
    IndexIs(head, '\r', |pre|, |head| - 2, e);
  }

  lemma {:induction false} CopyLinesPrinted(pre: Octets, fields: seq<Octets>, head: Octets)
    requires FieldsOk(fields) && head == pre + Block(fields) + CRLF
    ensures CopyLines(head, |pre|, |head| - 2) == Block(Keep(fields))
    decreases |fields|
  {
    hide Dropped, LineEnd;
    if fields != [] {
      LineOfBlock(pre, fields, head);
      CopyLinesPrinted(pre + (fields[0] + CRLF), fields[1..], head);
      if Dropped(fields[0]) {
        assert Keep(fields) == Keep(fields[1..]);
      } else {
        assert Keep(fields)[1..] == Keep(fields[1..]);
        assert Block(Keep(fields)) == fields[0] + CRLF + Block(Keep(fields[1..]));
      }
    }
  }

  lemma {:induction false} ScanHostPrinted(pre: Octets, fields: seq<Octets>, head: Octets, host: Octets)
    requires FieldsOk(fields) && head == pre + Block(fields) + CRLF
    ensures ScanHost(head, |pre|, |head| - 2, host) == LastHost(fields, host)
    decreases |fields|
  {
    hide HostAfter, LineEnd;
    if fields != [] {
      LineOfBlock(pre, fields, head);
      ScanHostPrinted(pre + (fields[0] + CRLF), fields[1..], head, HostAfter(fields[0], host));
    }
  }

  /** The first line of a printed request. */
  lemma RequestLinePrinted(r: Request)
    requires WellFormed(r)
    ensures RequestLine(Print(r))
         == Some((|r.verb|, |r.verb| + 1 + |r.target|, |r.verb| + |r.target| + |r.version| + 2))
  {
    var head := Print(r);
    var rest := CRLF + (Block(r.fields) + CRLF);
    var line := r.verb + " " + r.target + " " + r.version;
    assert head == line + rest;
    assert forall k :: 0 <= k < |line| ==> head[k] == line[k];
    assert head[|line|] == '\r';
    IndexIs(head, '\r', 0, |head|, |line|);
    assert forall k :: 0 <= k < |r.verb| ==> line[k] == r.verb[k];
    IndexIs(head, ' ', 0, |line|, |r.verb|);
    assert forall k :: 0 <= k < |r.target| ==> line[|r.verb| + 1 + k] == r.target[k];
    IndexIs(head, ' ', |r.verb| + 1, |line|, |r.verb| + 1 + |r.target|);
  }

  // ---------------------------------------------------------------- where the blank line is

  /** A line without CR in front moves the blank lines of what follows, and adds none. */
  lemma BlankAfterLine(f: Octets, t: Octets, i: int)
    requires NoCr(f)
    ensures BlankAt(f + t, i) <==> BlankAt(t, i - |f|)
  {
    var s := f + t;
    if 0 <= i < |f| {
      assert s[i] == f[i];
    } else if |f| <= i {
      assert forall k :: 0 <= k < |t| ==> s[|f| + k] == t[k];
    }
  }

  lemma {:induction false} BlockBlank(fields: seq<Octets>, i: int)
    requires FieldsOk(fields)
    ensures BlankAt(CRLF + (Block(fields) + CRLF), i) <==> i == |Block(fields)|
    decreases |fields|
  {
    var s := CRLF + (Block(fields) + CRLF);
    if fields != [] {
      var f, t := fields[0], CRLF + (Block(fields[1..]) + CRLF);
      assert s == CRLF + (f + t);
      assert s[2] == f[0];
      assert 2 <= i ==> (BlankAt(s, i) <==> BlankAt(f + t, i - 2)) by {
        assert forall k :: 0 <= k < |f + t| ==> s[2 + k] == (f + t)[k];
      }
      BlankAfterLine(f, t, i - 2);
      BlockBlank(fields[1..], i - 2 - |f|);
    }
  }

  /** A printed request ends at its first blank line. */
  lemma PrintedIsHead(r: Request)
    requires WellFormed(r)
    ensures IsHead(Print(r))
  {
    var line := r.verb + " " + r.target + " " + r.version;
    var t := CRLF + (Block(r.fields) + CRLF);
    var head := Print(r);
    assert head == line + t;
    forall i | 0 <= i < |head|
      ensures BlankAt(head, i) <==> i == |head| - 4
    {
      BlankAfterLine(line, t, i);
      BlockBlank(r.fields, i - |line|);
    }
  }

  // ---------------------------------------------------------------- the rewritten request

  lemma {:induction false} BlockConcat(a: seq<Octets>, b: seq<Octets>)
    ensures Block(a + b) == Block(a) + Block(b)
  {
    if a == [] {
      assert a + b == b;
    } else {
      assert (a + b)[1..] == a[1..] + b;
      BlockConcat(a[1..], b);
    }
  }

  lemma {:induction false} KeepConcat(a: seq<Octets>, b: seq<Octets>)
    ensures Keep(a + b) == Keep(a) + Keep(b)
  {
    hide Dropped;
    if a == [] {
      assert a + b == b;
    } else {
      assert (a + b)[1..] == a[1..] + b;
      KeepConcat(a[1..], b);
    }
  }

  lemma {:induction false} KeepTwice(a: seq<Octets>)
    ensures Keep(Keep(a)) == Keep(a)
  {
    hide Dropped;
    if a != [] {
      KeepTwice(a[1..]);
      if !Dropped(a[0]) {
        assert Keep(a)[1..] == Keep(a[1..]);
      } else {
        assert Keep(a) == Keep(a[1..]);
      }
    }
  }

  lemma TailIsBlock()
    ensures TAIL == Block(CLOSE_FIELDS) + CRLF
  {
    assert Block(CLOSE_FIELDS[1..]) == CLOSE_FIELDS[1] + CRLF + Block([]);
  }

  /** A name followed by ": close" is a field of that name. */
  lemma CloseField(name: Octets)
    requires ':' !in name
    ensures ColonIn(name + CLOSE) == |name| && (name + CLOSE)[..|name|] == name
  {
    var line := name + CLOSE;
    assert forall k :: 0 <= k < |name| ==> line[k] == name[k];
    assert line[|name|] == CLOSE[0];
    IndexIs(line, ':', 0, |line|, |name|);
  }

  lemma ConnectionDropped()
    ensures Dropped(CONNECTION + CLOSE)
  {
    CloseField(CONNECTION);
    hide ColonIn;
    assert Lower(CONNECTION) == "connection";
  }

  lemma ProxyConnectionDropped()
    ensures Dropped(PROXY_CONNECTION + CLOSE)
  {
    CloseField(PROXY_CONNECTION);
    hide ColonIn;
    assert Lower(PROXY_CONNECTION) == "proxy-connection";
  }

  /** The lines the rewriter adds are among those it removes. */
  lemma CloseFieldsDropped()
    ensures Keep(CLOSE_FIELDS) == []
  {
    ConnectionDropped();
    ProxyConnectionDropped();
    hide Dropped, CONNECTION, PROXY_CONNECTION;
    assert Keep(CLOSE_FIELDS[1..]) == [] + Keep([]);
  }

  lemma CloseFieldsOk()
    ensures FieldsOk(CLOSE_FIELDS)
  {
  }

  lemma {:induction false} ProxiedWellFormed(r: Request, ip: Ip4)
    requires WellFormed(r)
    ensures WellFormed(Proxied(r, ip))
  {
    hide Dropped, HostAfter;
    CloseFieldsOk();
    var host := HostOf(r, ip);
    assert NoCr(host) && ' ' !in host;
    assert NoCr(HTTP) && ' ' !in HTTP;
  }

  /** The pieces of a string made of three. */
  lemma Cuts(a: Octets, b: Octets, c: Octets)
    ensures var s := a + b + c;
            s[..|a|] == a && s[|a|..|a| + |b|] == b
  {
  }

  lemma FrontPrinted(r: Request, host: Octets)
    requires WellFormed(r)
    ensures var le := |r.verb| + |r.target| + |r.version| + 2;
            le + 2 <= |Print(r)|
            && FrontOf(Print(r), |r.verb| + 1, le, host)
               == r.verb + " " + (Scheme(r.target, host) + r.target) + " " + r.version + CRLF
  {
    var verb, tail, rest := r.verb + " ", r.target + " " + r.version, Block(r.fields) + CRLF;
    var head, target, scheme := Print(r), |r.verb| + 1, Scheme(r.target, host);
    PrintedParts(r);
    assert tail[0] == r.target[0] && Scheme(tail, host) == scheme;
    hide Print, Scheme, WellFormed, Block;
    Cuts(verb, tail, CRLF + rest);
    Cuts(verb, tail + CRLF, rest);
    assert |verb| == target && |tail + CRLF| == |tail| + 2;
    assert FrontOf(head, target, target + |tail|, host) == verb + scheme + (tail + CRLF);
    Spaced(r.verb, scheme, r.target, r.version);
  }

  lemma Spaced(a: Octets, b: Octets, c: Octets, d: Octets)
    ensures (a + " ") + b + ((c + " " + d) + CRLF) == a + " " + (b + c) + " " + d + CRLF
  {
  }

  lemma PrintedParts(r: Request)
    ensures var verb, tail, rest := r.verb + " ", r.target + " " + r.version, Block(r.fields) + CRLF;
            Print(r) == verb + tail + (CRLF + rest) && Print(r) == verb + (tail + CRLF) + rest
  {
    hide Block;
  }

  /** The three parts of the result, put together in the order of a print. */
  lemma JoinParts(front: Octets, kept: Octets, close: Octets)
    ensures front + kept + (close + CRLF) == front + (kept + close) + CRLF
  {
  }

  lemma HostPrinted(r: Request, ip: Ip4, pre: Octets)
    requires WellFormed(r) && Print(r) == pre + Block(r.fields) + CRLF
    ensures HostFor(Print(r), |pre|, ip) == HostOf(r, ip)
    ensures CopyLines(Print(r), |pre|, |Print(r)| - 2) == Block(Keep(r.fields))
  {
    hide Dropped, HostAfter, LineEnd, HostOk;
    CopyLinesPrinted(pre, r.fields, Print(r));
    ScanHostPrinted(pre, r.fields, Print(r), []);
  }

  lemma AssembledPrinted(r: Request, ip: Ip4)
    requires WellFormed(r)
    ensures var le := |r.verb| + |r.target| + |r.version| + 2;
            le + 4 <= |Print(r)| && Assembled(Print(r), |r.verb| + 1, le, ip) == Print(Proxied(r, ip))
  {
    hide WellFormed, FrontOf, Scheme, HostOk, TAIL, HostFor, CopyLines, Keep, HostOf, CLOSE_FIELDS;
    hide Block, Print, Proxied, LastHost;
    var head, host := Print(r), HostOf(r, ip);
    var pre := r.verb + " " + r.target + " " + r.version + CRLF;
    PrintIs(r);
    assert head == pre + Block(r.fields) + CRLF && |pre| == |r.verb| + |r.target| + |r.version| + 4;
    HostPrinted(r, ip, pre);
    FrontPrinted(r, host);
    BlockConcat(Keep(r.fields), CLOSE_FIELDS);
    TailIsBlock();
    ProxiedIs(r, ip);
    JoinParts(FrontOf(head, |r.verb| + 1, |pre| - 2, host), Block(Keep(r.fields)), Block(CLOSE_FIELDS));
  }

  lemma PrintIs(r: Request)
    ensures Print(r) == r.verb + " " + r.target + " " + r.version + CRLF + Block(r.fields) + CRLF
  {
    hide Block;
  }

  lemma ProxiedIs(r: Request, ip: Ip4)
    ensures var target := Scheme(r.target, HostOf(r, ip)) + r.target;
            Print(Proxied(r, ip)) == r.verb + " " + target + " " + r.version + CRLF
                                     + Block(Keep(r.fields) + CLOSE_FIELDS) + CRLF
  {
    hide Block, Scheme, HostOf, Keep, CLOSE_FIELDS;
  }

  lemma RewrittenIs(head: Octets, ip: Ip4)
    requires IsHead(head) && RequestLine(head).Some?
    ensures var (sp1, _, le) := RequestLine(head).value;
            sp1 + 1 <= le && le + 4 <= |head| && Rewritten(head, ip) == Some(Assembled(head, sp1 + 1, le, ip))
  {
    RequestLineParts(head);
    hide RequestLine, Assembled, IsHead;
  }

  /** For a well-formed request the rewriter is exactly the proxy form, printed. */
  lemma {:induction false} RewritePrinted(r: Request, ip: Ip4)
    requires WellFormed(r)
    ensures IsHead(Print(r)) && Rewritten(Print(r), ip) == Some(Print(Proxied(r, ip)))
  {
    hide *;
    PrintedIsHead(r);
    RequestLinePrinted(r);
    RewrittenIs(Print(r), ip);
    AssembledPrinted(r, ip);
  }

  /** Rewriting a rewritten request changes nothing. */
  lemma {:induction false} ProxiedTwice(r: Request, ip: Ip4, ip': Ip4)
    requires WellFormed(r)
    ensures Proxied(Proxied(r, ip), ip') == Proxied(r, ip)
  {
    hide Dropped, HostAfter, HostOk;
    var q := Proxied(r, ip);
    KeepConcat(Keep(r.fields), CLOSE_FIELDS);
    KeepTwice(r.fields);
    CloseFieldsDropped();
    assert q.target[0] != '/';
  }

  // ---------------------------------------------------------------- every head without a bare CR

  predicate BareCrAt(s: Octets, i: int) {
    0 <= i < |s| && s[i] == '\r' && !(i + 1 < |s| && s[i + 1] == '\n')
  }

  ghost predicate NoBareCr(s: Octets) { forall i :: !BareCrAt(s, i) }

  lemma NoBareCrSuffix(s: Octets, k: nat)
    requires NoBareCr(s) && k <= |s|
    ensures NoBareCr(s[k..])
  {
    forall i
      ensures !BareCrAt(s[k..], i)
    {
      assert !BareCrAt(s, i + k);
    }
  }

  lemma FirstBlankSuffix(t: Octets, n: int, k: nat)
    requires FirstBlank(t, n) && k <= n
    ensures FirstBlank(t[k..], n - k)
  {
    var u := t[k..];
    assert forall j :: 0 <= j < |u| ==> u[j] == t[k + j];
    forall i | 0 <= i < n - k
      ensures !BlankAt(u, i)
    {
      assert !BlankAt(t, i + k);
    }
  }

  /** The first line of a block that is more than its closing CRLF. */
  lemma FirstLine(s: Octets) returns (e: nat)
    requires NoBareCr(s) && |s| > 2 && FirstBlank(CRLF + s, |s| - 2)
    ensures 0 < e < |s| - 3 && NoCr(s[..e]) && s[e] == '\r' && s[e + 1] == '\n'
  {
    var t := CRLF + s;
    assert forall k :: 0 <= k < |s| ==> t[k + 2] == s[k];
    assert BlankAt(t, |s| - 2);
    e := IndexOf(s, '\r', 0, |s|);
    assert s[|s| - 2] == '\r' && s[|s| - 4] == '\r';
    assert !BlankAt(t, 0);
    assert !BareCrAt(s, e);
  }

  /** A block whose first blank line, counting the CRLF before it, is its end, splits into lines. */
  lemma {:induction false} ParseBlock(s: Octets) returns (fields: seq<Octets>)
    requires NoBareCr(s) && |s| >= 2 && FirstBlank(CRLF + s, |s| - 2)
    ensures FieldsOk(fields) && s == Block(fields) + CRLF
    decreases |s|
  {
    if |s| == 2 {
      assert BlankAt(CRLF + s, 0);
      assert forall k :: 0 <= k < |s| ==> (CRLF + s)[k + 2] == s[k];
      assert s == CRLF;
      return [];
    }
    var e := FirstLine(s);
    var f, s' := s[..e], s[e + 2..];
    assert s == f + CRLF + s';
    assert CRLF + s' == (CRLF + s)[e + 2..];
    FirstBlankSuffix(CRLF + s, |s| - 2, e + 2);
    NoBareCrSuffix(s, e + 2);
    var rest := ParseBlock(s');
    fields := [f] + rest;
    assert Block(fields) == f + CRLF + Block(rest);
  }

  lemma CutRequestLine(head: Octets) returns (r: Request)
    requires NoBareCr(head) && RequestLine(head).Some?
    ensures WellFormed(r) && r.fields == []
    ensures var le := RequestLine(head).value.2;
            le + 2 <= |head| && head[..le] == r.verb + " " + r.target + " " + r.version && head[le..le + 2] == CRLF
  {
    var (sp1, sp2, le) := RequestLine(head).value;
    RequestLineParts(head);
    r := Request(head[..sp1], head[sp1 + 1..sp2], head[sp2 + 1..le], []);
    assert !BareCrAt(head, le);
    assert head[..le] == head[..sp1] + " " + head[sp1 + 1..sp2] + " " + head[sp2 + 1..le];
  }

  /** Every head without a bare CR that has a method and a target is a printed request. */
  lemma {:induction false} ParseHead(head: Octets) returns (r: Request)
    requires IsHead(head) && NoBareCr(head) && RequestLine(head).Some?
    ensures WellFormed(r) && Print(r) == head
  {
    hide BlankAt;
    var le := RequestLine(head).value.2;
    RequestLineParts(head);
    var cut := CutRequestLine(head);
    hide RequestLine;
    var s := head[le + 2..];
    assert CRLF + s == head[le..];
    FirstBlankSuffix(head, |head| - 4, le);
    NoBareCrSuffix(head, le + 2);
    var fields := ParseBlock(s);
    r := cut.(fields := fields);
    assert head == head[..le] + CRLF + s;
    var line := r.verb + " " + r.target + " " + r.version + CRLF;
    assert line + (Block(fields) + CRLF) == line + Block(fields) + CRLF;
  }

  /** The rewriter on every head without a bare CR: it fails exactly when there is no request line;
      otherwise the head is some request and the result is that request's proxy form, which ends at its
      own first blank line and which a second rewrite would leave as it is. */
  lemma {:induction false} AbsoluteForm(head: Octets, ip: Ip4) returns (r: Request)
    requires IsHead(head) && NoBareCr(head)
    ensures Rewritten(head, ip).Some? <==> RequestLine(head).Some?
    ensures Rewritten(head, ip).Some? ==>
              var out := Rewritten(head, ip).value;
              && WellFormed(r) && head == Print(r) && out == Print(Proxied(r, ip))
              && IsHead(out)
              && forall ip' :: Rewritten(out, ip') == Some(out)
  {
    if RequestLine(head).None? {
      return Request([], [], [], []);
    }
    r := ParseHead(head);
    hide *;
    RewritePrinted(r, ip);
    var q := Proxied(r, ip);
    ProxiedWellFormed(r, ip);
    PrintedIsHead(q);
    forall ip'
      ensures Rewritten(Print(q), ip') == Some(Print(q))
    {
      RewritePrinted(q, ip');
      ProxiedTwice(r, ip, ip');
    }
  }
}
