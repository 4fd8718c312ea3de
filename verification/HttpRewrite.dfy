/** The HTTP request-head rewriter: origin-form in, absolute-form out. */
module HttpRewrite {
  import opened Bytes
  import opened Packet
  import opened Text

  const HTTP: Octets := "http://"
  const CONNECTION: Octets := "Connection"
  const PROXY_CONNECTION: Octets := "Proxy-Connection"
  const CLOSE: Octets := ": close"
  const TAIL: Octets := CONNECTION + CLOSE + CRLF + PROXY_CONNECTION + CLOSE + CRLF + CRLF

  // ---------------------------------------------------------------- blank line

  predicate BlankAt(s: Octets, i: int) {
    0 <= i && i + 3 < |s| && s[i] == '\r' && s[i + 1] == '\n' && s[i + 2] == '\r' && s[i + 3] == '\n'
  }

  /** r is where find_crlf2 must stop: the first CRLFCRLF, or -1. */
  ghost predicate FirstBlank(s: Octets, r: int) {
    (r == -1 || BlankAt(s, r)) && forall i :: 0 <= i < |s| && (r == -1 || i < r) ==> !BlankAt(s, i)
  }

  /** find_crlf2 over the first n bytes of a buffer. */
  method FindBlank(s: array<octet>, n: nat) returns (r: int)
    requires n <= s.Length
    ensures FirstBlank(s[..n], r)
  {
    var i := 0;
    while i + 3 < n
      invariant forall j :: 0 <= j < i ==> !BlankAt(s[..n], j)
    {
      if s[i] == '\r' && s[i + 1] == '\n' && s[i + 2] == '\r' && s[i + 3] == '\n' {
        return i;
      }
      i := i + 1;
    }
    return -1;
  }

  /** A request head as head_ready passes it on: cut right after the first CRLFCRLF. */
  ghost predicate IsHead(head: Octets) { |head| >= 4 && FirstBlank(head, |head| - 4) }

  // ---------------------------------------------------------------- one header line

  ghost function ColonIn(line: Octets): (c: nat)
    ensures c <= |line| && (c < |line| ==> line[c] == ':')
  {
    IndexOf(line, ':', 0, |line|)
  }

  ghost predicate IsField(line: Octets, name: Octets) {
    ColonIn(line) < |line| && Lower(line[..ColonIn(line)]) == name
  }

  ghost function FieldValue(line: Octets): Octets
    requires ColonIn(line) < |line|
  {
    Trim(line[ColonIn(line) + 1..])
  }

  /** The connection-management fields the proxy form leaves out. */
  ghost predicate Dropped(line: Octets) {
    IsField(line, "connection") || IsField(line, "proxy-connection") || IsField(line, "keep-alive")
  }

  /** The host buffer after one header line. */
  ghost function HostAfter(line: Octets, host: Octets): Octets {
    if IsField(line, "host") && |FieldValue(line)| < HOST_SIZE then CStr(FieldValue(line)) else host
  }

  // ---------------------------------------------------------------- the code's own walk

  ghost function LineEnd(head: Octets, s: nat, end: nat): (e: nat)
    requires s <= end <= |head|
    ensures s <= e <= end
  {
    IndexOf(head, '\r', s, end)
  }

  ghost function ScanHost(head: Octets, s: nat, end: nat, host: Octets): (r: Octets)
    requires end + 2 == |head|
    ensures |host| < HOST_SIZE ==> |r| < HOST_SIZE
    decreases end - s
  {
    if s >= end then host
    else
      var e := LineEnd(head, s, end);
      ScanHost(head, e + 2, end, HostAfter(head[s..e], host))
  }

  ghost function CopyLines(head: Octets, s: nat, end: nat): (r: Octets)
    requires end + 2 == |head|
    ensures s <= end ==> |r| <= end + 2 - s
    ensures s > end ==> r == []
    decreases end - s
  {
    if s >= end then []
    else
      var e := LineEnd(head, s, end);
      (if Dropped(head[s..e]) then [] else head[s..e + 2]) + CopyLines(head, e + 2, end)
  }

  /** Where the request line ends, and its two spaces; None if it has no target. */
  ghost function RequestLine(head: Octets): (r: Option<(nat, nat, nat)>)
    ensures r.Some? ==> var (sp1, sp2, le) := r.value;
              && sp1 + 1 < sp2 < le < |head| && head[sp1] == ' ' && head[sp2] == ' ' && head[le] == '\r'
              && (forall k :: 0 <= k < le ==> head[k] != '\r')
  {
    var le := IndexOf(head, '\r', 0, |head|);
    if le == |head| then None
    else
      var sp1 := IndexOf(head, ' ', 0, le);
      if sp1 == le then None
      else
        var sp2 := IndexOf(head, ' ', sp1 + 1, le);
        if sp2 == le || sp2 == sp1 + 1 then None else Some((sp1, sp2, le))
  }

  /** The parts of the request line are cut at the first spaces. */
  lemma RequestLineParts(head: Octets)
    requires RequestLine(head).Some?
    ensures var (sp1, sp2, le) := RequestLine(head).value;
            ' ' !in head[..sp1] && ' ' !in head[sp1 + 1..sp2] && '\r' !in head[..le]
            && (IsHead(head) ==> le <= |head| - 4)
  {
    assert IsHead(head) ==> head[|head| - 4] == '\r';
  }

  /** The host of a request whose header lines start at an index. */
  ghost function HostFor(head: Octets, start: nat, ip: Ip4): (host: Octets)
    requires 2 <= |head|
    ensures |host| < HOST_SIZE && HostOk(host)
  {
    var host := ScanHost(head, start, |head| - 2, []);
    if HostOk(host) then host else Dotted(ip)
  }

  function Scheme(target: Octets, host: Octets): Octets {
    if target != [] && target[0] == '/' then HTTP + host else []
  }

  /** The request line up to its CRLF, in absolute form. */
  ghost function FrontOf(head: Octets, target: nat, le: nat, host: Octets): Octets
    requires target <= le && le + 2 <= |head|
  {
    head[..target] + Scheme(head[target..le], host) + head[target..le + 2]
  }

  /** The request line, the lines kept, the fixed tail. */
  ghost function Assembled(head: Octets, target: nat, le: nat, ip: Ip4): Octets
    requires target <= le && le + 4 <= |head|
  {
    FrontOf(head, target, le, HostFor(head, le + 2, ip)) + CopyLines(head, le + 2, |head| - 2) + TAIL
  }

  /** What http_rewrite writes, for any head; None when it rejects the request line. */
  ghost function Rewritten(head: Octets, ip: Ip4): Option<Octets>
    requires IsHead(head)
  {
    var line := RequestLine(head);
    if line.None? then None
    else
      var (sp1, _, le) := line.value;
      assert head[|head| - 4] == '\r' && le <= |head| - 4;
      Some(Assembled(head, sp1 + 1, le, ip))
  }

  // ---------------------------------------------------------------- http_rewrite

  /** out_add */
  method OutAdd(out: array<octet>, cap: nat, w: nat, s: Octets) returns (ok: bool, w': nat)
    requires w <= cap <= out.Length
    modifies out
    ensures ok <==> w + |s| <= cap
    ensures w' == if ok then w + |s| else w
    ensures out[..w'] == old(out[..w]) + if ok then s else []
  {
    if w + |s| > cap {
      return false, w;
    }
    for i := 0 to |s|
      invariant out[..w] == old(out[..w])
      invariant out[w..w + i] == s[..i]
    {
      out[w + i] := s[i];
    }
    assert out[w..w + |s|] == s;
    assert out[..w + |s|] == out[..w] + out[w..w + |s|];
    return true, w + |s|;
  }

  /** What a line does to the host buffer, in place. */
  lemma HostAfterIs(head: Octets, s: nat, e: nat, host: Octets)
    requires s <= e <= |head|
    ensures var c := IndexOf(head, ':', s, e);
            HostAfter(head[s..e], host)
            == if c < e && Lower(head[s..c]) == "host" && |Trim(head[c + 1..e])| < HOST_SIZE
               then CStr(Trim(head[c + 1..e])) else host
  {
    hide Trim, Lower, CStr, IndexOf;
    SameColon(head, s, e);
  }

  /** The host buffer after the line head[s..e]. */
  method NextHost(head: Octets, s: nat, e: nat, host: Octets) returns (host': Octets)
    requires s <= e <= |head|
    ensures host' == HostAfter(head[s..e], host)
  {
    hide HostAfter, Trim, Lower, IndexOf;
    host' := host;
    var c := Memchr(head, ':', s, e);
    HostAfterIs(head, s, e, host);
    if c < e && Lower(head[s..c]) == "host" {
      var v := Trim(head[c + 1..e]);
      if |v| < HOST_SIZE {
        var nul := Memchr(v, '\0', 0, |v|);
        host' := v[..nul];
      }
    }
  }

  /** Whether the line head[s..e] is left out. */
  method IsDropped(head: Octets, s: nat, e: nat) returns (drop: bool)
    requires s <= e <= |head|
    ensures drop <==> Dropped(head[s..e])
  {
    var c := Memchr(head, ':', s, e);
    SameColon(head, s, e);
    drop := c < e && Lower(head[s..c]) in ["connection", "proxy-connection", "keep-alive"];
  }

  /** The cuts of the request line, checked in the order of the source. */
  method CutLine(head: Octets) returns (r: Option<(nat, nat, nat)>)
    ensures r == RequestLine(head)
  {
    var le := Memchr(head, '\r', 0, |head|);
    if le == |head| {
      return None;
    }
    var sp1 := Memchr(head, ' ', 0, le);
    if sp1 == le {
      return None;
    }
    var sp2 := Memchr(head, ' ', sp1 + 1, le);
    if sp2 == le || sp2 == sp1 + 1 {
      return None;
    }
    return Some((sp1, sp2, le));
  }

  /** The first pass of http_rewrite: the Host field, or the address the phone dialled. */
  method FindHost(head: Octets, start: nat, ip: Ip4) returns (host: Octets)
    requires 2 <= |head|
    ensures host == HostFor(head, start, ip)
  {
    hide HostAfter;
    host := [];
    var end := |head| - 2;
    var s: nat := start;
    while s < end
      invariant ScanHost(head, s, end, host) == ScanHost(head, start, end, [])
      decreases end - s
    {
      var e := Memchr(head, '\r', s, end);
      host := NextHost(head, s, e, host);
      s := e + 2;
    }
    if !HostOk(host) {
      host := Dotted(ip);
    }
  }

  /** The colon found in place is the colon of the line. */
  lemma SameColon(head: Octets, s: nat, e: nat)
    requires s <= e <= |head|
    ensures IndexOf(head, ':', s, e) == s + ColonIn(head[s..e])
    ensures var c := IndexOf(head, ':', s, e);
            c < e ==> head[s..e][..c - s] == head[s..c] && head[s..e][c - s + 1..] == head[c + 1..e]
  {
    var line := head[s..e];
    assert forall k :: s <= k < e ==> head[k] == line[k - s];
    IndexIs(head, ':', s, e, s + ColonIn(line));
  }

  /** The scheme and host of an origin-form target. */
  method PutScheme(head: Octets, target: nat, le: nat, host: Octets, out: array<octet>, cap: nat, w0: nat)
    returns (ok: bool, w: nat)
    requires target < le <= |head| && w0 <= cap <= out.Length
    modifies out
    ensures w <= cap
    ensures if ok then out[..w] == old(out[..w0]) + Scheme(head[target..le], host)
            else w0 + |Scheme(head[target..le], host)| > cap
  {
    ok, w := true, w0;
    if head[target] == '/' {
      ok, w := OutAdd(out, cap, w0, HTTP);
      if ok { ok, w := OutAdd(out, cap, w, host); }
    }
  }

  method PutRequestLine(head: Octets, target: nat, le: nat, host: Octets, out: array<octet>, cap: nat)
    returns (ok: bool, w: nat)
    requires target < le && le + 2 <= |head| && cap <= out.Length
    modifies out
    ensures w <= cap
    ensures if ok then out[..w] == FrontOf(head, target, le, host) else |FrontOf(head, target, le, host)| > cap
  {
    hide Scheme;
    ok, w := OutAdd(out, cap, 0, head[..target]);
    if ok { ok, w := PutScheme(head, target, le, host, out, cap, w); }
    if ok { ok, w := OutAdd(out, cap, w, head[target..le + 2]); }
  }

  lemma Associate(a: Octets, b: Octets, c: Octets)
    ensures a + (b + c) == a + b + c
  {
  }

  lemma CopyStep(head: Octets, s: nat, end: nat, done: Octets)
    requires end + 2 == |head| && s < end
    ensures var e := LineEnd(head, s, end);
            done + CopyLines(head, s, end)
            == done + (if Dropped(head[s..e]) then [] else head[s..e + 2]) + CopyLines(head, e + 2, end)
  {
    hide Dropped, LineEnd;
    var e := LineEnd(head, s, end);
    var line, rest := if Dropped(head[s..e]) then [] else head[s..e + 2], CopyLines(head, e + 2, end);
    Associate(done, line, rest);
  }

  /** One header line of the second pass. */
  method CopyLine(head: Octets, s: nat, e: nat, out: array<octet>, cap: nat, w0: nat) returns (ok: bool, w: nat)
    requires s <= e && e + 2 <= |head| && w0 <= cap <= out.Length
    modifies out
    ensures w <= cap
    ensures var line := if Dropped(head[s..e]) then [] else head[s..e + 2];
            if ok then out[..w] == old(out[..w0]) + line else w0 + |line| > cap
  {
    var drop := IsDropped(head, s, e);
    if drop {
      return true, w0;
    }
    ok, w := OutAdd(out, cap, w0, head[s..e + 2]);
  }

  /** The second pass of http_rewrite: copy the lines that are not connection management. */
  method CopyFields(head: Octets, start: nat, out: array<octet>, cap: nat, w0: nat) returns (ok: bool, w: nat)
    requires 2 <= |head| && w0 <= cap <= out.Length
    requires start <= |head| - 2
    modifies out
    ensures w <= cap
    ensures if ok then out[..w] == old(out[..w0]) + CopyLines(head, start, |head| - 2)
            else w0 + |CopyLines(head, start, |head| - 2)| > cap
  {
    hide Dropped, CopyLines;
    var end := |head| - 2;
    var s: nat := start;
    ok, w := true, w0;
    ghost var whole := out[..w0] + CopyLines(head, start, end);
    while ok && s < end
      invariant w <= cap
      invariant if ok then out[..w] + CopyLines(head, s, end) == whole else |whole| > cap
      decreases ok, end - s
    {
      var e := Memchr(head, '\r', s, end);
      CopyStep(head, s, end, out[..w]);
      ok, w := CopyLine(head, s, e, out, cap, w);
      s := e + 2;
    }
    NothingLeft(head, s, end);
  }

  lemma NothingLeft(head: Octets, s: nat, end: nat)
    requires end + 2 == |head|
    ensures s >= end ==> CopyLines(head, s, end) == []
  {
  }

  /** http_rewrite: the bytes written, or -1. */
  method Rewrite(head: Octets, ip: Ip4, out: array<octet>, cap: nat) returns (n: int, host: Octets)
    requires IsHead(head) && cap <= out.Length
    modifies out
    ensures n >= 0 <==> Rewritten(head, ip).Some? && |Rewritten(head, ip).value| <= cap
    ensures n >= 0 ==> n <= cap && out[..n] == Rewritten(head, ip).value
                         && host == HostFor(head, RequestLine(head).value.2 + 2, ip)
    ensures n >= -1
  {
    hide CopyLines, Scheme, HostFor, HostOk, RequestLine, TAIL;
    host := [];
    var line := CutLine(head);
    if line.None? {
      return -1, host;
    }
    var (sp1, sp2, le) := line.value;
    assert head[|head| - 4] == '\r' && le <= |head| - 4;
    host := FindHost(head, le + 2, ip);
    ghost var front := FrontOf(head, sp1 + 1, le, host);
    ghost var fields := CopyLines(head, le + 2, |head| - 2);
    assert Rewritten(head, ip) == Some(front + fields + TAIL);

    var ok, w := PutRequestLine(head, sp1 + 1, le, host, out, cap);
    if ok { ok, w := CopyFields(head, le + 2, out, cap, w); }
    if ok { ok, w := OutAdd(out, cap, w, TAIL); }
    return if ok then w else -1, host;
  }
}
