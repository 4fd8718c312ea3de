/** Finding the server name in a TLS ClientHello (section 4.1.2 of RFC 8446, section 3 of RFC 6066). */
module Sni {
  import opened Bytes
  import opened Text

  function Byte(b: Octets, i: nat): (r: byte)
    requires i < |b|
  {
    b[i] as int
  }

  function Be16(b: Octets, i: nat): (r: u16)
    requires i + 1 < |b|
  {
    256 * (b[i] as int) + b[i + 1] as int
  }

  // ---------------------------------------------------------------- what tls_sni computes

  /** A host name as the relay takes it: the part before any NUL, if every character is allowed. */
  ghost function Accepted(name: Octets): Option<Octets> {
    if HostOk(CStr(name)) then Some(CStr(name)) else None
  }

  /** The name list b[q..qe]. */
  ghost function ServerName(b: Octets, q: nat, qe: nat): (r: Option<Octets>)
    requires qe <= |b|
    ensures r.Some? ==> |r.value| < HOST_SIZE && HostOk(r.value)
    decreases qe - q
  {
    if q + 3 > qe then None
    else
      var nl := Be16(b, q + 1);
      if q + 3 + nl > qe then None
      else if Byte(b, q) == 0 && 0 < nl < HOST_SIZE then Accepted(b[q + 3..q + 3 + nl])
      else ServerName(b, q + 3 + nl, qe)
  }

  /** The extension block b[p..extEnd]. */
  ghost function Extensions(b: Octets, p: nat, extEnd: nat): (r: Option<Octets>)
    requires extEnd <= |b|
    ensures r.Some? ==> |r.value| < HOST_SIZE && HostOk(r.value)
    decreases extEnd - p
  {
    if p + 4 > extEnd then None
    else
      var len := Be16(b, p + 2);
      if p + 4 + len > extEnd then None
      else if Be16(b, p) == 0 then ServerName(b, p + 6, p + 4 + len)
      else Extensions(b, p + 4 + len, extEnd)
  }

  /** Where the extension block of a ClientHello starts and ends; None if the hello is cut short. */
  ghost function ExtensionBlock(b: Octets): (r: Option<(nat, nat)>)
    ensures r.Some? ==> r.value.1 <= |b|
  {
    if |b| < 5 || Byte(b, 0) != 0x16 then None
    else
      var end := if 5 + Be16(b, 3) > |b| then |b| else 5 + Be16(b, 3);
      if 9 > end || Byte(b, 5) != 1 then None
      else if 44 > end then None
      else
        var p1 := 44 + Byte(b, 43);
        if p1 + 2 > end then None
        else
          var p2 := p1 + 2 + Be16(b, p1);
          if p2 + 1 > end then None
          else
            var p3 := p2 + 1 + Byte(b, p2);
            if p3 + 2 > end then None
            else
              var extEnd := p3 + 2 + Be16(b, p3);
              Some((p3 + 2, if extEnd > end then end else extEnd))
  }

  ghost function SniOf(b: Octets): (r: Option<Octets>)
    ensures r.Some? ==> |r.value| < HOST_SIZE && HostOk(r.value)
  {
    match ExtensionBlock(b)
    case None => None
    case Some((p, extEnd)) => Extensions(b, p, extEnd)
  }

  /** The inner loop of tls_sni. */
  method FindName(b: Octets, q0: nat, qe: nat) returns (r: Option<Octets>)
    requires qe <= |b|
    ensures r == ServerName(b, q0, qe)
  {
    var q := q0;
    while q + 3 <= qe
      invariant ServerName(b, q, qe) == ServerName(b, q0, qe)
      decreases qe - q
    {
      var nt, nl := Byte(b, q), Be16(b, q + 1);
      q := q + 3;
      if q + nl > qe {
        return None;
      }
      if nt == 0 && nl > 0 && nl < HOST_SIZE {
        var out := b[q..q + nl];
        var nul := Memchr(out, '\0', 0, nl);
        return if HostOk(out[..nul]) then Some(out[..nul]) else None;
      }
      q := q + nl;
    }
    return None;
  }

  /** The first half of tls_sni: step over the fixed and variable fields before the extensions. */
  method SkipToExtensions(b: Octets) returns (r: Option<(nat, nat)>)
    ensures r == ExtensionBlock(b)
  {
    var n := |b|;
    if n < 5 || Byte(b, 0) != 0x16 {
      return None;
    }
    var end: nat := 5 + Be16(b, 3);
    if end > n { end := n; }
    var p: nat := 5;
    if p + 4 > end || Byte(b, p) != 1 {
      return None;
    }
    p := p + 4 + 2 + 32;
    if p + 1 > end {
      return None;
    }
    p := p + 1 + Byte(b, p);
    if p + 2 > end {
      return None;
    }
    p := p + 2 + Be16(b, p);
    if p + 1 > end {
      return None;
    }
    p := p + 1 + Byte(b, p);
    if p + 2 > end {
      return None;
    }
    var extEnd: nat := p + 2 + Be16(b, p);
    p := p + 2;
    if extEnd > end { extEnd := end; }
    return Some((p, extEnd));
  }

  /** tls_sni: for any bytes, every index stays inside b and both loops end. */
  method TlsSni(b: Octets) returns (r: Option<Octets>)
    ensures r == SniOf(b)
  {
    hide ExtensionBlock;
    var block := SkipToExtensions(b);
    if block.None? {
      return None;
    }
    var (start, extEnd) := block.value;
    var p: nat := start;
    while p + 4 <= extEnd
      invariant Extensions(b, p, extEnd) == Extensions(b, start, extEnd)
      decreases extEnd - p
    {
      var kind, len := Be16(b, p), Be16(b, p + 2);
      p := p + 4;
      if p + len > extEnd {
        return None;
      }
      if kind == 0 {
        r := FindName(b, p + 2, p + len);
        return;
      }
      p := p + len;
    }
    return None;
  }

  // ---------------------------------------------------------------- a ClientHello and its bytes

  datatype Extension = Extension(kind: u16, data: Octets)

  datatype Name = Name(kind: byte, name: Octets)

  /** A ClientHello with a server_name extension. The other extensions and names are arbitrary, except that
      none before it is a second server_name, and that host_name occurs once in the list, as RFC 6066 asks. */
  datatype Hello = Hello(
    recordVersion: Octets, version: Octets, random: Octets, session: Octets, suites: Octets, compression: Octets,
    before: seq<Extension>, namesBefore: seq<Name>, host: Octets, namesAfter: seq<Name>, after: seq<Extension>)

  function U8(n: byte): (r: Octets)
    ensures |r| == 1
  {
    [n as char]
  }

  function U16(n: u16): (r: Octets)
    ensures |r| == 2
  {
    [(n / 256) as char, (n % 256) as char]
  }

  ghost predicate ExtensionsOk(es: seq<Extension>) { forall i :: 0 <= i < |es| ==> |es[i].data| < 0x1_0000 }

  ghost predicate NamesOk(ns: seq<Name>) { forall i :: 0 <= i < |ns| ==> |ns[i].name| < 0x1_0000 && ns[i].kind != 0 }

  ghost function PrintExtensions(es: seq<Extension>): Octets
    requires ExtensionsOk(es)
  {
    if es == [] then []
    else U16(es[0].kind) + U16(|es[0].data|) + es[0].data + PrintExtensions(es[1..])
  }

  ghost function PrintNames(ns: seq<Name>): Octets
    requires NamesOk(ns)
  {
    if ns == [] then []
    else U8(ns[0].kind) + U16(|ns[0].name|) + ns[0].name + PrintNames(ns[1..])
  }

  /** The server_name list. */
  ghost function NameList(h: Hello): Octets
    requires NamesOk(h.namesBefore) && NamesOk(h.namesAfter) && |h.host| < 0x1_0000
  {
    PrintNames(h.namesBefore) + (U8(0) + U16(|h.host|) + h.host) + PrintNames(h.namesAfter)
  }

  ghost predicate NamesFit(h: Hello) {
    NamesOk(h.namesBefore) && NamesOk(h.namesAfter) && |h.host| < 0x1_0000 && |NameList(h)| + 2 < 0x1_0000
  }

  /** The extension block. */
  ghost function Block(h: Hello): Octets
    requires NamesFit(h) && ExtensionsOk(h.before) && ExtensionsOk(h.after)
  {
    PrintExtensions(h.before) + (U16(0) + U16(|NameList(h)| + 2) + (U16(|NameList(h)|) + NameList(h)))
    + PrintExtensions(h.after)
  }

  ghost predicate FieldsFit(h: Hello) {
    && |h.recordVersion| == 2 && |h.version| == 2 && |h.random| == 32
    && |h.session| < 256 && |h.suites| < 0x1_0000 && |h.compression| < 256
    && NamesFit(h) && ExtensionsOk(h.before) && ExtensionsOk(h.after)
    && (forall i :: 0 <= i < |h.before| ==> h.before[i].kind != 0)
    && |Block(h)| < 0x1_0000
  }

  ghost function Body(h: Hello): Octets
    requires FieldsFit(h)
  {
    h.version + h.random + U8(|h.session|) + h.session + U16(|h.suites|) + h.suites
    + U8(|h.compression|) + h.compression + U16(|Block(h)|) + Block(h)
  }

  ghost predicate WellFormed(h: Hello) { FieldsFit(h) && |Body(h)| + 4 < 0x1_0000 }

  /** The record: record header, handshake header, body. */
  ghost function Print(h: Hello): Octets
    requires WellFormed(h)
  {
    U8(0x16) + h.recordVersion + U16(|Body(h)| + 4) + U8(1) + U8(0) + U16(|Body(h)|) + Body(h)
  }

  // ---------------------------------------------------------------- reading back what was printed

  /** The fields of one printed name. */
  lemma NameFields(b: Octets, pre: Octets, kind: byte, name: Octets, suf: Octets)
    requires |name| < 0x1_0000 && b == pre + (U8(kind) + U16(|name|) + name) + suf
    ensures |pre| + 3 + |name| <= |b| && Byte(b, |pre|) == kind && Be16(b, |pre| + 1) == |name|
    ensures b[|pre| + 3..|pre| + 3 + |name|] == name
  {
    var entry := U8(kind) + U16(|name|) + name;
    assert forall k :: 0 <= k < |entry| ==> b[|pre| + k] == entry[k];
    assert entry[0] == U8(kind)[0] && entry[1] == U16(|name|)[0] && entry[2] == U16(|name|)[1];
  }

  /** The walk over the names steps over a name of another type or of no fitting length. */
  lemma SkipName(b: Octets, q: nat, nl: nat, qe: nat)
    requires q + 3 + nl <= qe <= |b| && Be16(b, q + 1) == nl
    requires Byte(b, q) != 0 || nl == 0 || nl >= HOST_SIZE
    ensures ServerName(b, q, qe) == ServerName(b, q + 3 + nl, qe)
  {
  }

  lemma {:induction false} NamesSkipped(b: Octets, pre: Octets, ns: seq<Name>, suf: Octets, qe: nat)
    requires NamesOk(ns) && b == pre + PrintNames(ns) + suf
    requires |pre| + |PrintNames(ns)| <= qe <= |b|
    ensures ServerName(b, |pre|, qe) == ServerName(b, |pre| + |PrintNames(ns)|, qe)
    decreases |ns|
  {
    hide ServerName;
    if ns != [] {
      var one, more := U8(ns[0].kind) + U16(|ns[0].name|) + ns[0].name, PrintNames(ns[1..]);
      assert PrintNames(ns) == one + more;
      assert b == pre + one + (more + suf);
      NameFields(b, pre, ns[0].kind, ns[0].name, more + suf);
      SkipName(b, |pre|, |ns[0].name|, qe);
      assert b == (pre + one) + more + suf;
      NamesSkipped(b, pre + one, ns[1..], suf, qe);
    }
  }

  /** What the walk makes of a name list whose one host_name is host. */
  ghost function FromList(host: Octets): Option<Octets> {
    if 0 < |host| < HOST_SIZE then Accepted(host) else None
  }

  /** It stops at a host_name of fitting length. */
  lemma TakeName(b: Octets, q: nat, nl: nat, qe: nat)
    requires q + 3 + nl <= qe <= |b| && Be16(b, q + 1) == nl
    requires Byte(b, q) == 0 && 0 < nl < HOST_SIZE
    ensures ServerName(b, q, qe) == Accepted(b[q + 3..q + 3 + nl])
  {
    hide Accepted;
  }

  lemma EndOfNames(b: Octets, qe: nat)
    requires qe <= |b|
    ensures ServerName(b, qe, qe) == None
  {
  }

  /** Three pieces between a front and a rest, seen as each piece. */
  lemma Parts(pre: Octets, a: Octets, c: Octets, d: Octets, suf: Octets)
    ensures pre + (a + c + d) + suf == pre + a + (c + (d + suf))
    ensures pre + (a + c + d) + suf == (pre + a) + c + (d + suf)
    ensures pre + (a + c + d) + suf == (pre + a + c) + d + suf
  {
    assert pre + (a + c + d) == pre + a + c + d;
    assert pre + a + c + d + suf == pre + a + c + (d + suf);
    assert pre + a + c + (d + suf) == pre + a + (c + (d + suf));
  }

  /** The walk at the one host_name of a list. */
  lemma AtHostName(b: Octets, q: nat, qe: nat, host: Octets)
    requires q + 3 + |host| <= qe <= |b| && Byte(b, q) == 0 && Be16(b, q + 1) == |host|
    requires b[q + 3..q + 3 + |host|] == host
    requires ServerName(b, q + 3 + |host|, qe) == None
    ensures ServerName(b, q, qe) == FromList(host)
  {
    hide Accepted, ServerName;
    if 0 < |host| < HOST_SIZE {
      TakeName(b, q, |host|, qe);
    } else {
      SkipName(b, q, |host|, qe);
    }
  }

  lemma ListParts(pre: Octets, h: Hello, suf: Octets)
    requires NamesFit(h)
    ensures var entry := U8(0) + U16(|h.host|) + h.host;
            var n1, n2, whole := PrintNames(h.namesBefore), PrintNames(h.namesAfter), pre + NameList(h) + suf;
            && whole == pre + n1 + (entry + (n2 + suf))
            && whole == (pre + n1) + entry + (n2 + suf)
            && whole == (pre + n1 + entry) + n2 + suf
            && |NameList(h)| == |n1| + 3 + |h.host| + |n2|
  {
    hide PrintNames, U8, U16, NamesOk;
    Parts(pre, PrintNames(h.namesBefore), U8(0) + U16(|h.host|) + h.host, PrintNames(h.namesAfter), suf);
  }

  lemma {:induction false} ListRead(b: Octets, pre: Octets, h: Hello, suf: Octets)
    requires NamesFit(h) && b == pre + NameList(h) + suf
    ensures ServerName(b, |pre|, |pre| + |NameList(h)|) == FromList(h.host)
  {
    hide U8, U16, Byte, Be16, PrintNames, FromList, ServerName, NamesOk, NameList;
    ListParts(pre, h, suf);
    var entry := U8(0) + U16(|h.host|) + h.host;
    var n1, n2 := PrintNames(h.namesBefore), PrintNames(h.namesAfter);
    var qe := |pre| + |NameList(h)|;
    NameFields(b, pre + n1, 0, h.host, n2 + suf);
    NamesSkipped(b, pre, h.namesBefore, entry + (n2 + suf), qe);
    NamesSkipped(b, pre + n1 + entry, h.namesAfter, suf, qe);
    EndOfNames(b, qe);
    AtHostName(b, |pre + n1|, qe, h.host);
  }

  /** The fields of one printed extension. */
  lemma ExtensionFields(b: Octets, pre: Octets, kind: u16, data: Octets, suf: Octets)
    requires |data| < 0x1_0000 && b == pre + (U16(kind) + U16(|data|) + data) + suf
    ensures |pre| + 4 + |data| <= |b| && Be16(b, |pre|) == kind && Be16(b, |pre| + 2) == |data|
  {
    var entry := U16(kind) + U16(|data|) + data;
    assert forall k :: 0 <= k < |entry| ==> b[|pre| + k] == entry[k];
    assert entry[0] == U16(kind)[0] && entry[1] == U16(kind)[1];
    assert entry[2] == U16(|data|)[0] && entry[3] == U16(|data|)[1];
  }

  /** The walk over the extensions at an extension that fits. */
  lemma AtExtension(b: Octets, p: nat, len: nat, extEnd: nat)
    requires p + 4 + len <= extEnd <= |b| && Be16(b, p + 2) == len
    ensures Extensions(b, p, extEnd)
         == if Be16(b, p) == 0 then ServerName(b, p + 6, p + 4 + len) else Extensions(b, p + 4 + len, extEnd)
  {
    hide ServerName;
  }

  lemma {:induction false} ExtensionsSkipped(b: Octets, pre: Octets, es: seq<Extension>, suf: Octets, extEnd: nat)
    requires ExtensionsOk(es) && b == pre + PrintExtensions(es) + suf
    requires forall i :: 0 <= i < |es| ==> es[i].kind != 0
    requires |pre| + |PrintExtensions(es)| <= extEnd <= |b|
    ensures Extensions(b, |pre|, extEnd) == Extensions(b, |pre| + |PrintExtensions(es)|, extEnd)
    decreases |es|
  {
    hide Extensions;
    if es != [] {
      var one, more := U16(es[0].kind) + U16(|es[0].data|) + es[0].data, PrintExtensions(es[1..]);
      assert PrintExtensions(es) == one + more;
      assert b == pre + one + (more + suf);
      ExtensionFields(b, pre, es[0].kind, es[0].data, more + suf);
      AtExtension(b, |pre|, |es[0].data|, extEnd);
      assert b == (pre + one) + more + suf;
      ExtensionsSkipped(b, pre + one, es[1..], suf, extEnd);
    }
  }

  lemma {:induction false} BlockRead(b: Octets, pre: Octets, h: Hello, suf: Octets)
    requires FieldsFit(h) && b == pre + Block(h) + suf
    ensures Extensions(b, |pre|, |pre| + |Block(h)|) == FromList(h.host)
  {
    hide Extensions, ServerName, FromList, NameList;
    var list, e1, e2 := NameList(h), PrintExtensions(h.before), PrintExtensions(h.after);
    var data := U16(|list|) + list;
    var entry := U16(0) + U16(|list| + 2) + data;
    var extEnd := |pre| + |Block(h)|;
    Parts(pre, e1, entry, e2, suf);
    ExtensionFields(b, pre + e1, 0, data, e2 + suf);
    hide U16, Be16;
    ExtensionsSkipped(b, pre, h.before, entry + (e2 + suf), extEnd);
    AtExtension(b, |pre + e1|, |data|, extEnd);
    Parts(pre + e1, U16(0) + U16(|list| + 2), U16(|list|), list, e2 + suf);
    assert entry == U16(0) + U16(|list| + 2) + U16(|list|) + list;
    ListRead(b, pre + e1 + (U16(0) + U16(|list| + 2)) + U16(|list|), h, e2 + suf);
  }

  // ---------------------------------------------------------------- the fields in front

  /** A printed one-byte length read back in place. */
  lemma ByteField(b: Octets, pre: Octets, n: byte, suf: Octets)
    requires b == pre + (U8(n) + suf)
    ensures |pre| < |b| && Byte(b, |pre|) == n
  {
    assert b[|pre|] == U8(n)[0];
  }

  lemma WordField(b: Octets, pre: Octets, n: u16, suf: Octets)
    requires b == pre + (U16(n) + suf)
    ensures |pre| + 1 < |b| && Be16(b, |pre|) == n
  {
    assert b[|pre|] == U16(n)[0] && b[|pre| + 1] == U16(n)[1];
  }

  /** What follows each length field in the body, in printing order. */
  ghost function AfterSession(h: Hello): Octets
    requires FieldsFit(h)
  {
    U16(|h.suites|) + (h.suites + AfterSuites(h))
  }

  ghost function AfterSuites(h: Hello): Octets
    requires FieldsFit(h)
  {
    U8(|h.compression|) + (h.compression + (U16(|Block(h)|) + Block(h)))
  }

  lemma BodyParts(h: Hello)
    requires FieldsFit(h)
    ensures Body(h) == h.version + h.random + (U8(|h.session|) + (h.session + AfterSession(h)))
    ensures Body(h) == h.version + h.random + U8(|h.session|) + h.session + AfterSession(h)
    ensures Body(h) == h.version + h.random + U8(|h.session|) + h.session + U16(|h.suites|) + h.suites + AfterSuites(h)
    ensures |Body(h)| == 40 + |h.session| + |h.suites| + |h.compression| + |Block(h)|
  {
    hide U8, U16, Block;
  }

  /** The length fields of the body, read back in place. */
  lemma BodyRead(b: Octets, front: Octets, h: Hello, suf: Octets)
    requires FieldsFit(h) && b == front + Body(h) + suf
    ensures var p0 := |front| + 34;
            var p1 := p0 + 1 + |h.session|;
            var p2 := p1 + 2 + |h.suites|;
            var p3 := p2 + 1 + |h.compression|;
            && p3 + 2 + |Block(h)| + |suf| == |b|
            && Byte(b, p0) == |h.session| && Be16(b, p1) == |h.suites| && Byte(b, p2) == |h.compression|
            && Be16(b, p3) == |Block(h)|
            && b[..p3 + 2] + Block(h) + suf == b
  {
    BodyParts(h);
    hide Body, Block, FieldsFit, U8, U16, Byte, Be16, AfterSession, AfterSuites;
    var v0 := front + (h.version + h.random);
    var v1 := v0 + U8(|h.session|) + h.session;
    var v2 := v1 + U16(|h.suites|) + h.suites;
    BodyField0(b, front, h, suf);
    BodyField1(b, front, h, suf);
    BodyField2(b, front, h, suf);
  }

  lemma BodyField0(b: Octets, front: Octets, h: Hello, suf: Octets)
    requires FieldsFit(h) && b == front + Body(h) + suf
    ensures |front| + 34 < |b| && Byte(b, |front| + 34) == |h.session|
  {
    BodyParts(h);
    hide Body, Block, U8, U16, Byte, Be16, AfterSession, AfterSuites;
    ByteField(b, front + (h.version + h.random), |h.session|, h.session + AfterSession(h) + suf);
  }

  lemma BodyField1(b: Octets, front: Octets, h: Hello, suf: Octets)
    requires FieldsFit(h) && b == front + Body(h) + suf
    ensures |front| + 36 + |h.session| < |b| && Be16(b, |front| + 35 + |h.session|) == |h.suites|
  {
    BodyParts(h);
    hide Body, Block, U8, U16, Byte, Be16, AfterSuites;
    var pre := front + (h.version + h.random + U8(|h.session|) + h.session);
    WordField(b, pre, |h.suites|, h.suites + AfterSuites(h) + suf);
  }

  /** The body up to its compression length, and from its extensions length on. */
  lemma BodyTail(front: Octets, h: Hello, suf: Octets) returns (v2: Octets, v3: Octets)
    requires FieldsFit(h)
    ensures |v2| == |front| + 37 + |h.session| + |h.suites| && |v3| == |v2| + 1 + |h.compression|
    ensures front + Body(h) + suf
         == v2 + (U8(|h.compression|) + (h.compression + (U16(|Block(h)|) + Block(h) + suf)))
    ensures front + Body(h) + suf == v3 + (U16(|Block(h)|) + (Block(h) + suf))
  {
    hide Body, Block, U8, U16, AfterSession;
    BodyParts(h);
    v2 := front + (h.version + h.random + U8(|h.session|) + h.session + U16(|h.suites|) + h.suites);
    v3 := v2 + U8(|h.compression|) + h.compression;
    Tail4(v2, U8(|h.compression|), h.compression, U16(|Block(h)|) + Block(h), suf);
    Tail4(v3, U16(|Block(h)|), Block(h), [], suf);
  }

  lemma Tail4(front: Octets, a: Octets, c: Octets, d: Octets, suf: Octets)
    ensures front + (a + (c + d)) + suf == front + (a + (c + (d + suf)))
    ensures front + (a + (c + d)) + suf == (front + a + c) + (d + suf)
    ensures d == [] ==> front + (a + c) + suf == front + (a + (c + suf))
  {
  }

  lemma BodyField2(b: Octets, front: Octets, h: Hello, suf: Octets)
    requires FieldsFit(h) && b == front + Body(h) + suf
    ensures var p2 := |front| + 37 + |h.session| + |h.suites|;
            var p3 := p2 + 1 + |h.compression|;
            && p3 + 2 + |Block(h)| + |suf| == |b|
            && Byte(b, p2) == |h.compression| && Be16(b, p3) == |Block(h)|
            && b[..p3 + 2] + Block(h) + suf == b
  {
    hide Body, Block, U8, U16, Byte, Be16;
    var v2, v3 := BodyTail(front, h, suf);
    ByteField(b, v2, |h.compression|, h.compression + (U16(|Block(h)|) + Block(h) + suf));
    WordField(b, v3, |Block(h)|, Block(h) + suf);
    assert b[..|v3| + 2] == v3 + U16(|Block(h)|);
  }

  /** The record and handshake headers, read back in place. */
  lemma FrontRead(b: Octets, h: Hello, suf: Octets) returns (front: Octets)
    requires WellFormed(h) && b == Print(h) + suf
    ensures |front| == 9 && b == front + Body(h) + suf
    ensures Byte(b, 0) == 0x16 && Be16(b, 3) == |Body(h)| + 4 && Byte(b, 5) == 1
  {
    hide Body;
    front := U8(0x16) + h.recordVersion + U16(|Body(h)| + 4) + U8(1) + U8(0) + U16(|Body(h)|);
    var t := U8(1) + (U8(0) + U16(|Body(h)|) + Body(h) + suf);
    WordField(b, U8(0x16) + h.recordVersion, |Body(h)| + 4, t);
    ByteField(b, U8(0x16) + h.recordVersion + U16(|Body(h)| + 4), 1, U8(0) + U16(|Body(h)|) + Body(h) + suf);
    ByteField(b, [], 0x16, h.recordVersion + U16(|Body(h)| + 4) + t);
  }

  /** The steps over the fields in front land on the printed extension block. */
  lemma HeaderRead(b: Octets, h: Hello, suf: Octets) returns (pre: Octets)
    requires WellFormed(h) && b == Print(h) + suf
    ensures b == pre + Block(h) + suf && ExtensionBlock(b) == Some((|pre|, |pre| + |Block(h)|))
  {
    hide Print, Body, Block, Byte, Be16;
    var front := FrontRead(b, h, suf);
    BodyRead(b, front, h, suf);
    BodyParts(h);
    pre := b[..|b| - |Block(h)| - |suf|];
  }

  lemma SniIs(b: Octets, p: nat, extEnd: nat)
    requires ExtensionBlock(b) == Some((p, extEnd))
    ensures extEnd <= |b| && SniOf(b) == Extensions(b, p, extEnd)
  {
    hide ExtensionBlock, Extensions;
  }

  lemma WellFormedFits(h: Hello)
    requires WellFormed(h)
    ensures FieldsFit(h)
  {
  }

  /** tls_sni undoes the printer: whatever the other fields, extensions and names, and whatever follows the
      record, the result is what the relay takes of the printed host name. */
  lemma {:induction false} SniOfPrinted(h: Hello, suf: Octets)
    requires WellFormed(h)
    ensures SniOf(Print(h) + suf) == FromList(h.host)
  {
    hide *;
    var b := Print(h) + suf;
    WellFormedFits(h);
    var pre := HeaderRead(b, h, suf);
    BlockRead(b, pre, h, suf);
    SniIs(b, |pre|, |pre| + |Block(h)|);
  }

  lemma HostOkPlain(name: Octets)
    ensures HostOk(name) ==> CStr(name) == name && name != []
  {
    if HostOk(name) {
      IndexIs(name, '\0', 0, |name|, |name|);
    }
  }

  /** The host name comes back whole exactly when it has 1 to 79 characters, all allowed. */
  lemma {:induction false} SniRoundTrip(h: Hello, suf: Octets)
    requires WellFormed(h)
    ensures SniOf(Print(h) + suf) == Some(h.host) <==> |h.host| < HOST_SIZE && HostOk(h.host)
  {
    SniOfPrinted(h, suf);
    hide SniOf, Print, WellFormed;
    hide HostOk, HostChar;
    HostOkPlain(h.host);
  }
}
