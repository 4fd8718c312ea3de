/** What goes out for a request, in words of its own: which host, which header lines, which end. */
module HttpMeaning {
  import opened Bytes
  import opened Packet
  import opened Text
  import opened HttpRewrite
  import opened HttpForm
  import HttpGrowth
  import Session

  predicate Blank(s: Octets) { forall i :: 0 <= i < |s| ==> s[i] == ' ' || s[i] == '\t' }

  /** A header line of this name. */
  predicate Named(line: Octets, name: Octets) {
    |line| > |name| && SameButCase(line[..|name|], name) && line[|name|] == ':'
  }

  predicate Hop(line: Octets) {
    Named(line, "connection") || Named(line, "proxy-connection") || Named(line, "keep-alive")
  }

  /** The header lines that go on: all but the hop-by-hop ones, in order, each with its line end. */
  function Forwarded(fields: seq<Octets>): Octets {
    if fields == [] then []
    else (if Hop(fields[0]) then [] else fields[0] + "\r\n") + Forwarded(fields[1..])
  }

  /** The fixed end of every head that goes out. */
  const END: Octets := "Connection: close" + "\r\n" + "Proxy-Connection: close" + "\r\n" + "\r\n"

  const LOWER: string := "abcdefghijklmnopqrstuvwxyz"
  const UPPER: string := "ABCDEFGHIJKLMNOPQRSTUVWXYZ"
  const DIGITS: string := "0123456789"

  /** A host is not empty and made of these characters. */
  lemma HostOkExactly(h: Octets)
    ensures HostOk(h) <==> h != [] && forall i :: 0 <= i < |h| ==> h[i] in LOWER + UPPER + DIGITS + ".-_:[]"
  {
    forall i | 0 <= i < |h|
      ensures HostChar(h[i]) <==> h[i] in LOWER + UPPER + DIGITS + ".-_:[]"
    {
      InLower(h[i]);
      InUpper(h[i]);
      InDigits(h[i]);
      hide LOWER, UPPER, DIGITS;
      assert h[i] in ".-_:[]" <==> h[i] in ['.', '-', '_', ':', '[', ']'];
    }
  }

  lemma InLower(c: char)
    ensures c in LOWER <==> 'a' <= c <= 'z'
  {
    assert 'a' <= c <= 'z' ==> LOWER[c as int - 'a' as int] == c;
  }

  lemma InUpper(c: char)
    ensures c in UPPER <==> 'A' <= c <= 'Z'
  {
    assert 'A' <= c <= 'Z' ==> UPPER[c as int - 'A' as int] == c;
  }

  lemma InDigits(c: char)
    ensures c in DIGITS <==> '0' <= c <= '9'
  {
    assert '0' <= c <= '9' ==> DIGITS[c as int - '0' as int] == c;
  }

  /** The code's notion of a field, for a name in lower case. */
  lemma FieldIsNamed(line: Octets, name: Octets)
    requires ':' !in name && Lower(name) == name
    ensures IsField(line, name) <==> Named(line, name)
  {
    if Named(line, name) {
      LowerExactly(line[..|name|], name);
      NoColon(line[..|name|], name);
      IndexIs(line, ':', 0, |line|, |name|);
    } else if IsField(line, name) {
      LowerExactly(line[..ColonIn(line)], name);
    }
  }

  lemma NoColon(a: Octets, b: Octets)
    requires Lower(a) == Lower(b) && ':' !in b
    ensures ':' !in a
  {
    forall i | 0 <= i < |a|
      ensures a[i] != ':'
    {
      assert Lower(a)[i] == Lower(b)[i] && b[i] != ':';
    }
  }

  lemma NamesPlain()
    ensures ':' !in "connection" && Lower("connection") == "connection"
    ensures ':' !in "proxy-connection" && Lower("proxy-connection") == "proxy-connection"
    ensures ':' !in "keep-alive" && Lower("keep-alive") == "keep-alive"
    ensures ':' !in "host" && Lower("host") == "host"
  {
  }

  /** Exactly the hop-by-hop fields are left out. */
  lemma DroppedIsHop(line: Octets)
    ensures Dropped(line) <==> Hop(line)
  {
    hide IsField, Named, Lower;
    NamesPlain();
    FieldIsNamed(line, "connection");
    FieldIsNamed(line, "proxy-connection");
    FieldIsNamed(line, "keep-alive");
  }

  lemma {:induction false} KeepIsForwarded(fields: seq<Octets>)
    ensures Block(Keep(fields)) == Forwarded(fields)
  {
    hide Dropped, Hop;
    if fields != [] {
      var rest := fields[1..];
      KeepIsForwarded(rest);
      DroppedIsHop(fields[0]);
      assert ([fields[0]] + Keep(rest))[1..] == Keep(rest) && [] + Keep(rest) == Keep(rest);
      assert [] + Forwarded(rest) == Forwarded(rest);
    }
  }

  lemma EndIsTail()
    ensures TAIL == END
  {
    assert CONNECTION + CLOSE == "Connection: close" && PROXY_CONNECTION + CLOSE == "Proxy-Connection: close";
  }

  // ---------------------------------------------------------------- the value of a Host field

  lemma {:induction false} LeftPad(pad: Octets, s: Octets)
    requires Blank(pad)
    ensures TrimLeft(pad + s) == TrimLeft(s)
  {
    if pad == [] {
      assert pad + s == s;
    } else {
      assert (pad + s)[1..] == pad[1..] + s;
      LeftPad(pad[1..], s);
    }
  }

  lemma {:induction false} RightPad(s: Octets, pad: Octets)
    requires Blank(pad)
    ensures TrimRight(s + pad) == TrimRight(s)
  {
    if pad == [] {
      assert s + pad == s;
    } else {
      var n := |pad| - 1;
      assert (s + pad)[..|s + pad| - 1] == s + pad[..n];
      RightPad(s, pad[..n]);
    }
  }

  /** No blank at either end. */
  predicate Bare(s: Octets) {
    s == [] || (s[0] != ' ' && s[0] != '\t' && s[|s| - 1] != ' ' && s[|s| - 1] != '\t')
  }

  lemma Padded(pad: Octets, value: Octets, pad': Octets)
    requires Blank(pad) && Blank(pad') && Bare(value)
    ensures Trim(pad + value + pad') == value
  {
    hide Blank;
    assert pad + value + pad' == pad + (value + pad');
    LeftPad(pad, value + pad');
    if value == [] {
      assert value + pad' == pad' == pad' + [];
      LeftPad(pad', []);
    } else {
      assert (value + pad')[0] == value[0];
      assert TrimLeft(value + pad') == value + pad';
      RightPad(value, pad');
      assert TrimRight(value) == value;
    }
  }

  /** What a Host field whose value is given does to the host: a value that is too long is passed over. */
  lemma HostLine(name: Octets, pad: Octets, value: Octets, pad': Octets, host: Octets)
    requires SameButCase(name, "host") && Blank(pad) && Blank(pad') && Bare(value)
    ensures HostAfter(name + ":" + pad + value + pad', host) == if |value| < 80 then CStr(value) else host
  {
    var line := name + ":" + pad + value + pad';
    assert line[..4] == name && line[4] == ':' && line[5..] == pad + value + pad';
    NamesPlain();
    FieldIsNamed(line, "host");
    LowerExactly(name, "host");
    NoColon(name, "host");
    IndexIs(line, ':', 0, |line|, 4);
    Padded(pad, value, pad');
    hide Trim, CStr, Bare, Blank, Named, IsField;
    assert IsField(line, "host");
  }

  /** Every Host field has such a form. */
  lemma HostFieldSplits(line: Octets) returns (name: Octets, pad: Octets, value: Octets, pad': Octets)
    requires Named(line, "host")
    ensures line == name + ":" + pad + value + pad'
    ensures SameButCase(name, "host") && Blank(pad) && Blank(pad') && Bare(value)
  {
    name := line[..4];
    var right;
    pad, right := CutLeft(line[5..]);
    value, pad' := CutRight(right);
    assert line == name + ":" + line[5..];
    assert line[5..] == pad + (value + pad');
  }

  lemma {:induction false} CutLeft(s: Octets) returns (pad: Octets, rest: Octets)
    ensures s == pad + rest && Blank(pad) && (rest != [] ==> rest[0] != ' ' && rest[0] != '\t')
  {
    if s == [] || (s[0] != ' ' && s[0] != '\t') {
      return [], s;
    }
    pad, rest := CutLeft(s[1..]);
    pad := [s[0]] + pad;
  }

  lemma {:induction false} CutRight(s: Octets) returns (rest: Octets, pad: Octets)
    requires s != [] ==> s[0] != ' ' && s[0] != '\t'
    ensures s == rest + pad && Blank(pad) && Bare(rest)
  {
    if s == [] || (s[|s| - 1] != ' ' && s[|s| - 1] != '\t') {
      return s, [];
    }
    rest, pad := CutRight(s[..|s| - 1]);
    pad := pad + [s[|s| - 1]];
  }

  lemma {:induction false} NoLaterHost(fields: seq<Octets>, host: Octets)
    requires forall i :: 0 <= i < |fields| ==> !Named(fields[i], "host")
    ensures LastHost(fields, host) == host
  {
    hide Named, IsField, FieldValue, CStr;
    if fields != [] {
      NamesPlain();
      FieldIsNamed(fields[0], "host");
      NoLaterHost(fields[1..], HostAfter(fields[0], host));
    }
  }

  lemma {:induction false} LastHostConcat(a: seq<Octets>, b: seq<Octets>, host: Octets)
    ensures LastHost(a + b, host) == LastHost(b, LastHost(a, host))
  {
    hide HostAfter;
    if a == [] {
      assert a + b == b;
    } else {
      assert (a + b)[1..] == a[1..] + b;
      LastHostConcat(a[1..], b, HostAfter(a[0], host));
    }
  }

  // ---------------------------------------------------------------- what goes out

  /** A request in absolute form, its header lines without the hop-by-hop ones, and the fixed end. */
  function Sent(r: Request, target: Octets): Octets {
    r.verb + " " + target + " " + r.version + "\r\n" + Forwarded(r.fields) + END
  }

  lemma ProxiedIsSent(r: Request, ip: Ip4)
    requires WellFormed(r)
    ensures IsHead(Print(r)) && Rewritten(Print(r), ip) == Some(Sent(r, Scheme(r.target, HostOf(r, ip)) + r.target))
  {
    hide WellFormed, HostOf, Scheme, Keep, Forwarded, TAIL, END, CLOSE_FIELDS, Rewritten, Block;
    RewritePrinted(r, ip);
    KeepIsForwarded(r.fields);
    BlockConcat(Keep(r.fields), CLOSE_FIELDS);
    TailIsBlock();
    EndIsTail();
    var front := r.verb + " " + (Scheme(r.target, HostOf(r, ip)) + r.target) + " " + r.version + CRLF;
    var kept, close := Forwarded(r.fields), Block(CLOSE_FIELDS);
    JoinParts(front, kept, close);
  }

  lemma SchemeOf(r: Request, ip: Ip4)
    requires WellFormed(r)
    ensures Scheme(r.target, HostOf(r, ip)) == if r.target[0] == '/' then "http://" + HostOf(r, ip) else []
  {
  }

  /** The host of a request is what its last Host field of fewer than 80 bytes says. */
  lemma HostNamed(fields: seq<Octets>, before: seq<Octets>, name: Octets, pad: Octets, value: Octets, pad': Octets,
                  after: seq<Octets>)
    requires fields == before + [name + ":" + pad + value + pad'] + after
    requires SameButCase(name, "host") && Blank(pad) && Blank(pad') && Bare(value)
    requires forall i :: 0 <= i < |after| ==> !Named(after[i], "host")
    ensures LastHost(fields, []) == if |value| < 80 then CStr(value) else LastHost(before, [])
  {
    hide Named, HostAfter, SameButCase, Blank, Bare, CStr;
    var line, host := name + ":" + pad + value + pad', LastHost(before, []);
    HostLine(name, pad, value, pad', host);
    LastHostConcat(before + [line], after, []);
    LastHostConcat(before, [line], []);
    assert LastHost([line], host) == HostAfter(line, host);
    NoLaterHost(after, HostAfter(line, host));
  }

  /** An origin-form request goes out for the host its last Host field names, whatever blanks stand around it and
      whatever the case of the field's name. */
  lemma HostForwarded(r: Request, ip: Ip4, before: seq<Octets>, name: Octets, pad: Octets, value: Octets, pad': Octets,
                      after: seq<Octets>)
    requires WellFormed(r) && r.target[0] == '/'
    requires r.fields == before + [name + ":" + pad + value + pad'] + after
    requires SameButCase(name, "host") && Blank(pad) && Blank(pad') && HostOk(value) && |value| < 80
    requires forall i :: 0 <= i < |after| ==> !Named(after[i], "host")
    ensures IsHead(Print(r)) && Rewritten(Print(r), ip) == Some(Sent(r, "http://" + value + r.target))
  {
    assert HostChar(value[0]) && HostChar(value[|value| - 1]);
    hide WellFormed, Print, Rewritten, Named, HostOk, SameButCase, Blank, Sent, IsHead, CStr;
    HttpGrowth.HostIsPlain(value);
    HostNamed(r.fields, before, name, pad, value, pad', after);
    SchemeOf(r, ip);
    ProxiedIsSent(r, ip);
  }

  /** One whose last Host field says something that is no host goes out for the address the phone dialled. */
  lemma BadHostForwarded(r: Request, ip: Ip4, before: seq<Octets>, name: Octets, pad: Octets, value: Octets,
                         pad': Octets, after: seq<Octets>)
    requires WellFormed(r) && r.target[0] == '/'
    requires r.fields == before + [name + ":" + pad + value + pad'] + after
    requires SameButCase(name, "host") && Blank(pad) && Blank(pad') && Bare(value) && |value| < 80
    requires !HostOk(CStr(value))
    requires forall i :: 0 <= i < |after| ==> !Named(after[i], "host")
    ensures IsHead(Print(r)) && Rewritten(Print(r), ip) == Some(Sent(r, "http://" + Dotted(ip) + r.target))
  {
    hide WellFormed, Print, Rewritten, Named, HostOk, SameButCase, Blank, Bare, Sent, IsHead, CStr, Dotted;
    HostNamed(r.fields, before, name, pad, value, pad', after);
    SchemeOf(r, ip);
    ProxiedIsSent(r, ip);
  }

  /** One without a Host field goes out for the address the phone dialled. */
  lemma AddressForwarded(r: Request, ip: Ip4)
    requires WellFormed(r) && r.target[0] == '/'
    requires forall i :: 0 <= i < |r.fields| ==> !Named(r.fields[i], "host")
    ensures IsHead(Print(r)) && Rewritten(Print(r), ip) == Some(Sent(r, "http://" + Dotted(ip) + r.target))
  {
    hide WellFormed, Print, Rewritten, Named, Sent, IsHead, Dotted;
    NoLaterHost(r.fields, []);
    SchemeOf(r, ip);
    ProxiedIsSent(r, ip);
  }

  /** A target that is not in origin form stays as it is. */
  lemma TargetForwarded(r: Request, ip: Ip4)
    requires WellFormed(r) && r.target[0] != '/'
    ensures IsHead(Print(r)) && Rewritten(Print(r), ip) == Some(Sent(r, r.target))
  {
    hide WellFormed, Print, Rewritten, Sent, IsHead, HostOf;
    ProxiedIsSent(r, ip);
    assert [] + r.target == r.target;
  }

  /** What opens a tunnel is a request head as section 9.3.6 of RFC 9110 has it: CONNECT, the host with its port, and a
      Host field that says the same. */
  lemma ConnectIsPrinted(host: Octets)
    requires HostOk(host)
    ensures var r := Request("CONNECT", host + ":443", "HTTP/1.1", ["Host: " + host + ":443"]);
            WellFormed(r) && Session.ConnectRequest(host) == Print(r) && IsHead(Print(r))
  {
    var r := Request("CONNECT", host + ":443", "HTTP/1.1", ["Host: " + host + ":443"]);
    assert NoCr(host) && ' ' !in host;
    OneField(r.fields[0]);
    ConnectPieces(host, r);
    assert FieldsOk(r.fields);
    PrintedIsHead(r);
  }

  lemma OneField(f: Octets)
    ensures Block([f]) == f + CRLF
  {
    assert Block([f][1..]) == [];
  }

  lemma ConnectPieces(host: Octets, r: Request)
    requires r == Request("CONNECT", host + ":443", "HTTP/1.1", ["Host: " + host + ":443"])
    requires Block(r.fields) == r.fields[0] + CRLF
    ensures Session.ConnectRequest(host) == Print(r)
  {
    hide Block;
    assert "CONNECT" + " " == Session.CONNECT && " " + "HTTP/1.1" == Session.VERSION;
    assert Session.ConnectRequest(host)
        == "CONNECT" + " " + (host + ":443") + " " + "HTTP/1.1" + CRLF + ("Host: " + host + ":443" + CRLF) + CRLF;
  }

  // ---------------------------------------------------------------- dotted addresses

  /** The number a string of digits stands for. */
  function Value(s: Octets): nat
    requires forall i :: 0 <= i < |s| ==> '0' <= s[i] <= '9'
  {
    if s == [] then 0 else 10 * Value(s[..|s| - 1]) + (s[|s| - 1] as int - '0' as int)
  }

  predicate Digits(s: Octets) { s != [] && forall i :: 0 <= i < |s| ==> '0' <= s[i] <= '9' }

  /** A dotted address is its four numbers, in order, without leading zeros. */
  lemma DottedExactly(ip: Ip4)
    ensures Dotted(ip) == Decimal(ip.a) + "." + Decimal(ip.b) + "." + Decimal(ip.c) + "." + Decimal(ip.d)
    ensures forall b: byte {:trigger Decimal(b)} ::
              Digits(Decimal(b)) && Value(Decimal(b)) == b && (|Decimal(b)| > 1 ==> Decimal(b)[0] != '0')
  {
    forall b: byte
      ensures Digits(Decimal(b)) && Value(Decimal(b)) == b && (|Decimal(b)| > 1 ==> Decimal(b)[0] != '0')
    {
      DecimalExactly(b);
    }
  }

  lemma OneDigit(d: nat)
    requires d < 10
    ensures Digits([Digit(d)]) && Value([Digit(d)]) == d && (d > 0 ==> Digit(d) != '0')
  {
    assert Value([Digit(d)][..0]) == 0;
  }

  lemma OneMore(s: Octets, d: nat)
    requires Digits(s) && d < 10
    ensures Digits(s + [Digit(d)]) && Value(s + [Digit(d)]) == 10 * Value(s) + d
  {
    assert (s + [Digit(d)])[..|s|] == s;
  }

  lemma DecimalExactly(b: byte)
    ensures Digits(Decimal(b)) && Value(Decimal(b)) == b && (|Decimal(b)| > 1 ==> Decimal(b)[0] != '0')
  {
    hide Value, Digits, Digit;
    if b < 10 {
      OneDigit(b);
    } else {
      var high := b / 10;
      TwoDigits(high);
      OneMore(Decimal(high), b % 10);
      assert Decimal(b) == Decimal(high) + [Digit(b % 10)];
      assert Decimal(b)[0] == Decimal(high)[0];
      assert Value(Decimal(b)) == 10 * high + b % 10;
    }
  }

  lemma TwoDigits(b: nat)
    requires 0 < b < 100
    ensures Digits(Decimal(b)) && Value(Decimal(b)) == b && Decimal(b)[0] != '0'
  {
    hide Value, Digits, Digit;
    if b < 10 {
      OneDigit(b);
    } else {
      OneDigit(b / 10);
      OneMore([Digit(b / 10)], b % 10);
      assert Decimal(b) == [Digit(b / 10)] + [Digit(b % 10)];
    }
  }
}
