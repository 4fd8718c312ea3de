/** Byte strings seen as text: C strings, ASCII case, trimming, dotted addresses. */
module Text {
  import opened Bytes
  import opened Packet

  /** A byte of a text buffer. */
  type octet = c: char | c as int < 0x100
  type Octets = seq<octet>

  const CRLF: Octets := "\r\n"

  /** The host buffer of a session, NUL included. */
  const HOST_SIZE := 80

  /** r is the first index of c in s[lo..hi], or hi if there is none. */
  ghost predicate IsIndex(s: Octets, c: octet, lo: nat, hi: nat, r: nat)
    requires hi <= |s|
  {
    lo <= r <= hi && (r < hi ==> s[r] == c) && forall k :: lo <= k < r ==> s[k] != c
  }

  lemma IndexExists(s: Octets, c: octet, lo: nat, hi: nat)
    requires lo <= hi <= |s|
    ensures exists r :: IsIndex(s, c, lo, hi, r)
    decreases hi - lo
  {
    if lo == hi || s[lo] == c {
      assert IsIndex(s, c, lo, hi, lo);
    } else {
      IndexExists(s, c, lo + 1, hi);
      var r :| IsIndex(s, c, lo + 1, hi, r);
      assert IsIndex(s, c, lo, hi, r);
    }
  }

  ghost function IndexOf(s: Octets, c: octet, lo: nat, hi: nat): (r: nat)
    requires lo <= hi <= |s|
    ensures IsIndex(s, c, lo, hi, r)
  {
    IndexExists(s, c, lo, hi);
    var r :| IsIndex(s, c, lo, hi, r);
    r
  }

  lemma IndexIs(s: Octets, c: octet, lo: nat, hi: nat, r: nat)
    requires lo <= hi <= |s| && IsIndex(s, c, lo, hi, r)
    ensures IndexOf(s, c, lo, hi) == r
  {
    var q := IndexOf(s, c, lo, hi);
    assert !(q < r) && !(r < q);
  }

  /** memchr */
  method Memchr(s: Octets, c: octet, lo: nat, hi: nat) returns (r: nat)
    requires lo <= hi <= |s|
    ensures r == IndexOf(s, c, lo, hi)
  {
    r := lo;
    while r < hi && s[r] != c
      invariant lo <= r <= hi
      invariant forall k :: lo <= k < r ==> s[k] != c
    {
      r := r + 1;
    }
    IndexIs(s, c, lo, hi, r);
  }

  function ToLower(c: octet): octet {
    if 'A' <= c <= 'Z' then (c as int + 32) as char else c
  }

  function Lower(s: Octets): (r: Octets)
    ensures |r| == |s|
    ensures forall i :: 0 <= i < |s| ==> r[i] == ToLower(s[i])
  {
    seq(|s|, i requires 0 <= i < |s| => ToLower(s[i]))
  }

  /** The same text but for the case of its letters. */
  predicate SameButCase(a: Octets, b: Octets) {
    |a| == |b| && forall i :: 0 <= i < |a| ==> SameLetter(a[i], b[i])
  }

  predicate SameLetter(c: octet, d: octet) {
    || c == d
    || ('A' <= c <= 'Z' && d as int == c as int + 32)
    || ('A' <= d <= 'Z' && c as int == d as int + 32)
  }

  lemma LowerExactly(a: Octets, b: Octets)
    ensures Lower(a) == Lower(b) <==> SameButCase(a, b)
  {
    if |a| == |b| {
      forall i | 0 <= i < |a|
        ensures ToLower(a[i]) == ToLower(b[i]) <==> SameLetter(a[i], b[i])
      {
        LetterExactly(a[i], b[i]);
      }
      if Lower(a) == Lower(b) {
        assert forall i :: 0 <= i < |a| ==> Lower(a)[i] == Lower(b)[i];
      }
    }
  }

  lemma LetterExactly(c: octet, d: octet)
    ensures ToLower(c) == ToLower(d) <==> SameLetter(c, d)
  {
    assert 'A' <= c <= 'Z' ==> ToLower(c) as int == c as int + 32;
    assert 'A' <= d <= 'Z' ==> ToLower(d) as int == d as int + 32;
  }

  predicate IsBlank(c: octet) { c == ' ' || c == '\t' }

  function TrimLeft(s: Octets): (r: Octets)
    ensures |r| <= |s|
    ensures r != [] ==> !IsBlank(r[0])
  {
    if s != [] && IsBlank(s[0]) then TrimLeft(s[1..]) else s
  }

  function TrimRight(s: Octets): (r: Octets)
    ensures r <= s
    ensures r != [] ==> !IsBlank(r[|r| - 1])
  {
    if s != [] && IsBlank(s[|s| - 1]) then TrimRight(s[..|s| - 1]) else s
  }

  function Trim(s: Octets): Octets { TrimRight(TrimLeft(s)) }

  /** What C sees of a buffer: everything before the first NUL. */
  ghost function CStr(s: Octets): (r: Octets)
    ensures r <= s && '\0' !in r
    ensures |r| < |s| ==> s[|r|] == '\0'
  {
    s[..IndexOf(s, '\0', 0, |s|)]
  }

  predicate HostChar(c: octet) {
    || 'a' <= c <= 'z' || 'A' <= c <= 'Z' || '0' <= c <= '9'
    || c == '.' || c == '-' || c == '_' || c == ':' || c == '[' || c == ']'
  }

  /** host_ok */
  predicate HostOk(h: Octets) { h != [] && forall i :: 0 <= i < |h| ==> HostChar(h[i]) }

  function Digit(d: int): (c: octet)
    requires 0 <= d < 10
    ensures HostChar(c) && c != ' ' && c != '\r'
  {
    ('0' as int + d) as char
  }

  function Decimal(b: byte): (s: Octets)
    ensures 1 <= |s| <= 3 && HostOk(s)
  {
    if b < 10 then [Digit(b)]
    else if b < 100 then [Digit(b / 10), Digit(b % 10)]
    else [Digit(b / 100), Digit(b / 10 % 10), Digit(b % 10)]
  }

  /** ip4addr_ntoa_r */
  function Dotted(ip: Ip4): (s: Octets)
    ensures 7 <= |s| <= 15 && HostOk(s)
  {
    Decimal(ip.a) + "." + Decimal(ip.b) + "." + Decimal(ip.c) + "." + Decimal(ip.d)
  }
}
