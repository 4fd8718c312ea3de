/** Cleaning up what a user typed into a bookmark: titles, addresses, and the record they are stored as. */
module BookmarkText {
  import opened Bytes
  import opened Text

  const BM_TITLE_MAX := 32
  const BM_URL_MAX := 160
  const BM_RAW_MAX := 192
  const HTTP: Octets := "http://"
  const HTTPS: Octets := "https://"
  const SEPARATOR: Octets := "://"
  const NEWLINE: octet := '\n'

  // ---------------------------------------------------------------- sanitize

  predicate Control(c: octet) { c as int < 0x20 || c as int == 0x7f }

  /** The characters that are kept. */
  function Printable(s: Octets): (r: Octets)
    ensures forall i :: 0 <= i < |r| ==> !Control(r[i])
  {
    if s == [] then [] else (if Control(s[0]) then [] else [s[0]]) + Printable(s[1..])
  }

  function DropSpaces(s: Octets): (r: Octets)
    ensures r <= s && (r != [] ==> r[|r| - 1] != ' ')
  {
    if s != [] && s[|s| - 1] == ' ' then DropSpaces(s[..|s| - 1]) else s
  }

  function Cut(s: Octets, n: nat): (r: Octets)
    ensures r <= s && |r| <= n && (|s| <= n ==> r == s)
  {
    if |s| <= n then s else s[..n]
  }

  /** What sanitize leaves in a buffer of n bytes: the cut comes before the trailing spaces go. */
  function Sanitized(s: Octets, n: nat): (r: Octets)
    requires n > 0
    ensures |r| < n
  {
    DropSpaces(Cut(Printable(TrimLeft(s)), n - 1))
  }

  method SkipLeading(src: Octets) returns (i: nat)
    ensures i <= |src| && src[i..] == TrimLeft(src)
  {
    i := 0;
    while i < |src| && IsBlank(src[i])
      invariant i <= |src|
      invariant TrimLeft(src[i..]) == TrimLeft(src)
    {
      assert src[i..][1..] == src[i + 1..];
      i := i + 1;
    }
  }

  lemma PrintableStep(src: Octets, i: nat)
    requires i < |src|
    ensures Printable(src[i..]) == (if Control(src[i]) then [] else [src[i]]) + Printable(src[i + 1..])
  {
    assert src[i..][1..] == src[i + 1..];
  }

  method CopyPrintable(src: Octets, start: nat, dst: array<octet>) returns (w: nat)
    requires start <= |src| && dst.Length > 0
    modifies dst
    ensures w < dst.Length && dst[..w] == Cut(Printable(src[start..]), dst.Length - 1)
  {
    hide Printable, Control;
    var n, i: nat := dst.Length, start;
    ghost var kept := Printable(src[start..]);
    w := 0;
    while i < |src| && w + 1 < n
      invariant i <= |src| && w < n
      invariant dst[..w] + Printable(src[i..]) == kept
      decreases |src| - i
    {
      PrintableStep(src, i);
      ghost var before, rest := dst[..w], Printable(src[i + 1..]);
      if !Control(src[i]) {
        dst[w] := src[i];
        w := w + 1;
        assert dst[..w] == before + [src[i]];
        assert before + ([src[i]] + rest) == before + [src[i]] + rest;
      } else {
        assert [] + rest == rest;
      }
      i := i + 1;
    }
    NothingAfter(src, i);
  }

  lemma NothingAfter(src: Octets, i: nat)
    requires i <= |src|
    ensures i == |src| ==> Printable(src[i..]) == []
  {
  }

  method TrimTrailing(dst: array<octet>, w0: nat) returns (w: nat)
    requires w0 <= dst.Length
    ensures w <= w0 && dst[..w] == DropSpaces(dst[..w0])
  {
    w := w0;
    while w > 0 && dst[w - 1] == ' '
      invariant w <= w0
      invariant DropSpaces(dst[..w]) == DropSpaces(dst[..w0])
    {
      assert dst[..w][..w - 1] == dst[..w - 1];
      w := w - 1;
    }
  }

  /** sanitize */
  method Sanitize(src: Octets, dst: array<octet>) returns (w: nat)
    requires dst.Length > 0
    modifies dst
    ensures w < dst.Length && dst[w] == '\0' && dst[..w] == Sanitized(src, dst.Length)
  {
    hide TrimLeft, Printable, DropSpaces, Cut;
    var i := SkipLeading(src);
    w := CopyPrintable(src, i, dst);
    w := TrimTrailing(dst, w);
    ghost var text := dst[..w];
    dst[w] := '\0';
    assert dst[..w] == text;
  }

  /** Text that sanitizing leaves alone. */
  ghost predicate Clean(s: Octets) {
    && (forall i :: 0 <= i < |s| ==> !Control(s[i]))
    && (s != [] ==> !IsBlank(s[0]) && s[|s| - 1] != ' ')
  }

  lemma {:induction false} PrintableIsSame(s: Octets)
    requires forall i :: 0 <= i < |s| ==> !Control(s[i])
    ensures Printable(s) == s
  {
    if s != [] {
      PrintableIsSame(s[1..]);
      assert s == [s[0]] + s[1..];
    }
  }

  lemma CleanStays(s: Octets, n: nat)
    requires Clean(s) && |s| < n
    ensures Sanitized(s, n) == s
  {
    PrintableIsSame(s);
    assert TrimLeft(s) == s;
    assert Cut(s, n - 1) == s;
  }

  lemma SanitizedPrintable(s: Octets, n: nat)
    requires n > 0
    ensures var r := Sanitized(s, n);
            (forall i :: 0 <= i < |r| ==> !Control(r[i])) && (r != [] ==> r[|r| - 1] != ' ')
  {
  }

  // ---------------------------------------------------------------- normalize_url

  /** strstr(s, "://") finds something. */
  predicate HasSeparator(s: Octets) { |s| >= 3 && (s[..3] == SEPARATOR || HasSeparator(s[1..])) }

  /** starts_with_ci */
  predicate StartsWith(s: Octets, prefix: Octets) { |s| >= |prefix| && Lower(s[..|prefix|]) == Lower(prefix) }

  predicate IsDigit(c: octet) { '0' <= c <= '9' }

  /** A host, or a host with a numeric port: the first colon, if any, comes after the first slash or starts
      a nonempty run of digits up to it. */
  ghost predicate BareHost(s: Octets) {
    var colon, slash := IndexOf(s, ':', 0, |s|), IndexOf(s, '/', 0, |s|);
    colon < slash ==> colon + 1 < slash && forall i :: colon < i < slash ==> IsDigit(s[i])
  }

  /** is_bare_host */
  method IsBareHost(s: Octets) returns (r: bool)
    ensures r <==> BareHost(s)
  {
    var slash := Memchr(s, '/', 0, |s|);
    var colon := Memchr(s, ':', 0, |s|);
    if colon == |s| {
      return true;
    }
    if slash != |s| && colon > slash {
      return true;
    }
    var p := colon + 1;
    if p == |s| || p == slash {
      return false;
    }
    while p < |s| && p != slash
      invariant colon < p <= slash
      invariant forall i :: colon < i < p ==> IsDigit(s[i])
    {
      if !IsDigit(s[p]) {
        return false;
      }
      p := p + 1;
    }
    return true;
  }

  /** What is stored for an address once it is cleaned. */
  ghost function AddressOf(clean: Octets): (r: Option<Octets>)
    ensures r.Some? ==> |r.value| < BM_URL_MAX
  {
    if clean == [] || |clean| >= BM_URL_MAX then None
    else if !HasSeparator(clean) then
      if !BareHost(clean) || |clean| + 7 >= BM_URL_MAX then None else Some(HTTP + clean)
    else if StartsWith(clean, HTTP) || StartsWith(clean, HTTPS) then Some(clean)
    else None
  }

  /** What normalize_url stores for an address. */
  ghost function Normalized(s: Octets): (r: Option<Octets>)
    ensures r.Some? ==> |r.value| < BM_URL_MAX
  {
    AddressOf(Sanitized(s, 2 * BM_URL_MAX))
  }

  /** normalize_url */
  method NormalizeUrl(s: Octets) returns (r: Option<Octets>)
    ensures r == Normalized(s)
  {
    var buf := new octet[2 * BM_URL_MAX];
    var w := Sanitize(s, buf);
    var clean := buf[..w];
    if clean == [] || |clean| >= BM_URL_MAX {
      return None;
    }
    if !HasSeparator(clean) {
      var bare := IsBareHost(clean);
      if !bare || |clean| + 7 >= BM_URL_MAX {
        return None;
      }
      return Some(HTTP + clean);
    }
    if !StartsWith(clean, HTTP) && !StartsWith(clean, HTTPS) {
      return None;
    }
    return Some(clean);
  }

  lemma {:induction false} SeparatorInside(a: Octets, b: Octets)
    requires HasSeparator(a)
    ensures HasSeparator(a + b)
  {
    if a[..3] == SEPARATOR {
      assert (a + b)[..3] == a[..3];
    } else {
      assert (a + b)[1..] == a[1..] + b;
      SeparatorInside(a[1..], b);
    }
  }

  lemma HttpHasSeparator()
    ensures HasSeparator(HTTP)
  {
    assert HTTP[1..][1..][1..][1..][..3] == SEPARATOR;
  }

  lemma SchemeAdded(clean: Octets)
    ensures HasSeparator(HTTP + clean) && StartsWith(HTTP + clean, HTTP)
  {
    HttpHasSeparator();
    SeparatorInside(HTTP, clean);
    assert (HTTP + clean)[..7] == HTTP;
  }

  /** An accepted address is clean. */
  lemma AcceptedIsClean(s: Octets)
    requires Normalized(s).Some?
    ensures Clean(Normalized(s).value) && Normalized(s).value != []
  {
    hide Sanitized, BareHost, HasSeparator, StartsWith;
    var clean, url := Sanitized(s, 2 * BM_URL_MAX), Normalized(s).value;
    SanitizedPrintable(s, 2 * BM_URL_MAX);
    StartsPlain(clean);
    if url != clean {
      PrefixClean(clean);
    }
  }

  lemma PrefixClean(clean: Octets)
    requires clean != [] && clean[|clean| - 1] != ' ' && forall i :: 0 <= i < |clean| ==> !Control(clean[i])
    ensures Clean(HTTP + clean)
  {
  }

  /** Normalizing an accepted address again returns it unchanged. */
  lemma {:induction false} NormalizedTwice(s: Octets)
    requires Normalized(s).Some?
    ensures Normalized(Normalized(s).value) == Normalized(s)
  {
    hide Clean, Sanitized, BareHost, HasSeparator, StartsWith, HTTP, HTTPS;
    var clean, url := Sanitized(s, 2 * BM_URL_MAX), Normalized(s).value;
    AcceptedIsClean(s);
    CleanStays(url, 2 * BM_URL_MAX);
    if url != clean {
      SchemeAdded(clean);
    }
  }

  lemma StartsPlain(url: Octets)
    ensures StartsWith(url, HTTP) || StartsWith(url, HTTPS) ==> url != [] && !IsBlank(url[0])
  {
    if StartsWith(url, HTTP) {
      assert Lower(url[..7])[0] == Lower(HTTP)[0];
    } else if StartsWith(url, HTTPS) {
      assert Lower(url[..8])[0] == Lower(HTTPS)[0];
    }
  }

  // ---------------------------------------------------------------- over-long addresses

  /** The whole typed text, cleaned, had there been room for it. */
  function Whole(s: Octets): Octets { DropSpaces(Printable(TrimLeft(s))) }

  lemma {:induction false} SpacesDropped(t: Octets, n: nat)
    ensures |DropSpaces(t)| <= n <==> forall i :: n <= i < |t| ==> t[i] == ' '
  {
    if t != [] && t[|t| - 1] == ' ' {
      SpacesDropped(t[..|t| - 1], n);
    }
  }

  /** Spaces at the end go, however many. */
  lemma {:induction false} SpacesCut(t: Octets, n: nat)
    requires n <= |t| && forall i :: n <= i < |t| ==> t[i] == ' '
    ensures DropSpaces(t) == DropSpaces(t[..n])
    decreases |t|
  {
    if n == |t| {
      assert t[..n] == t;
    } else {
      var m := |t| - 1;
      SpacesCut(t[..m], n);
      assert t[..m][..n] == t[..n];
    }
  }

  /** The characters from the 160th to the 319th kept are all spaces, and more follow. */
  ghost predicate Gap(kept: Octets) {
    |kept| >= 2 * BM_URL_MAX && forall i :: BM_URL_MAX - 1 <= i < 2 * BM_URL_MAX - 1 ==> kept[i] == ' '
  }

  /** An address too long to store fails the length test, except exactly when its text has the gap. */
  lemma OverlongPassesExactlyWhen(s: Octets)
    requires |Whole(s)| >= BM_URL_MAX
    ensures |Sanitized(s, 2 * BM_URL_MAX)| < BM_URL_MAX <==> Gap(Printable(TrimLeft(s)))
  {
    var kept := Printable(TrimLeft(s));
    var cut := Cut(kept, 2 * BM_URL_MAX - 1);
    SpacesDropped(cut, BM_URL_MAX - 1);
    SpacesDropped(kept, BM_URL_MAX - 1);
  }

  /** So it is refused, unless it has the gap and what stands before the gap makes an address of its own; then that
      is stored in its place. */
  lemma OverlongStoredExactlyWhen(s: Octets)
    requires |Whole(s)| >= BM_URL_MAX
    ensures var kept := Printable(TrimLeft(s));
            && (Normalized(s).Some? <==> Gap(kept) && AddressOf(DropSpaces(kept[..BM_URL_MAX - 1])).Some?)
            && (Normalized(s).Some? ==> Normalized(s) == AddressOf(DropSpaces(kept[..BM_URL_MAX - 1])))
  {
    hide BareHost, HasSeparator, StartsWith;
    OverlongPassesExactlyWhen(s);
    var kept := Printable(TrimLeft(s));
    if Gap(kept) {
      SpacesCut(kept[..2 * BM_URL_MAX - 1], BM_URL_MAX - 1);
      assert kept[..2 * BM_URL_MAX - 1][..BM_URL_MAX - 1] == kept[..BM_URL_MAX - 1];
    }
  }

  /** One character, 318 spaces and another: longer than can be stored, yet stored as the first character. */
  function Gapped(): Octets { "a" + seq(318, _ => ' ') + "b" }

  lemma GappedShape()
    ensures var s := Gapped();
            |s| == 320 && s[0] == 'a' && s[319] == 'b' && (forall i :: 1 <= i < 319 ==> s[i] == ' ')
            && Printable(TrimLeft(s)) == s
  {
    PrintableIsSame(Gapped());
  }

  lemma OneLetterUrl()
    ensures BareHost("a") && !HasSeparator("a")
  {
    IndexIs("a", ':', 0, 1, 1);
    IndexIs("a", '/', 0, 1, 1);
  }

  lemma GappedIsCut()
    ensures |Whole(Gapped())| == 320 && Normalized(Gapped()) == Some(HTTP + "a")
  {
    GappedShape();
    OneLetterUrl();
    hide Gapped, BareHost, HasSeparator, Printable, TrimLeft;
    var s := Gapped();
    var cut := s[..319];
    SpacesDropped(cut, 1);
    SpacesDropped(cut, 0);
    assert DropSpaces(cut) == cut[..1] == "a";
  }
}
