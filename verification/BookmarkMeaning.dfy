/** What is stored for what a user types, said of the text itself. */
module BookmarkMeaning {
  import opened Bytes
  import opened Text
  import opened BookmarkText

  // ---------------------------------------------------------------- cleaning

  /** Characters are kept or left out one by one: control characters are left out. */
  lemma {:induction false} PrintableJoins(a: Octets, b: Octets)
    ensures Printable(a + b) == Printable(a) + Printable(b)
  {
    if a == [] {
      assert a + b == b;
    } else {
      assert (a + b)[1..] == a[1..] + b;
      PrintableJoins(a[1..], b);
    }
  }

  lemma PrintableOne(c: octet)
    ensures Printable([c]) == if c as int < 32 || c as int == 127 then [] else [c]
  {
    assert [c][1..] == [];
  }

  /** Cleaning takes off the blanks in front, leaves out the control characters, cuts what does not fit, and takes off
      the spaces behind, in this order. */
  lemma SanitizedExactly(s: Octets, n: nat) returns (pad: Octets, rest: Octets, spaces: Octets)
    requires n > 0
    ensures s == pad + rest && (forall i :: 0 <= i < |pad| ==> pad[i] == ' ' || pad[i] == '\t')
    ensures rest != [] ==> rest[0] != ' ' && rest[0] != '\t'
    ensures var kept, clean := Printable(rest), Sanitized(s, n);
            && (if |kept| < n then kept else kept[..n - 1]) == clean + spaces
            && (clean != [] ==> clean[|clean| - 1] != ' ')
    ensures forall i :: 0 <= i < |spaces| ==> spaces[i] == ' '
  {
    pad := LeftOf(s);
    rest := TrimLeft(s);
    spaces := RightOf(Cut(Printable(rest), n - 1));
  }

  lemma {:induction false} LeftOf(s: Octets) returns (pad: Octets)
    ensures s == pad + TrimLeft(s) && forall i :: 0 <= i < |pad| ==> pad[i] == ' ' || pad[i] == '\t'
  {
    if s == [] || !IsBlank(s[0]) {
      return [];
    }
    pad := LeftOf(s[1..]);
    pad := [s[0]] + pad;
  }

  lemma {:induction false} RightOf(s: Octets) returns (spaces: Octets)
    ensures s == DropSpaces(s) + spaces && forall i :: 0 <= i < |spaces| ==> spaces[i] == ' '
  {
    if s == [] || s[|s| - 1] != ' ' {
      return [];
    }
    spaces := RightOf(s[..|s| - 1]);
    spaces := spaces + [s[|s| - 1]];
  }

  // ---------------------------------------------------------------- addresses

  ghost predicate SeparatorAt(s: Octets, i: nat) { i + 3 <= |s| && s[i..i + 3] == "://" }

  lemma {:induction false} HasSeparatorExactly(s: Octets)
    ensures HasSeparator(s) <==> exists i: nat :: SeparatorAt(s, i)
  {
    if |s| >= 3 {
      var t := s[1..];
      HasSeparatorExactly(t);
      assert SeparatorAt(s, 0) <==> s[..3] == SEPARATOR;
      if i: nat :| SeparatorAt(t, i) {
        assert s[i + 1..i + 4] == t[i..i + 3];
        assert SeparatorAt(s, i + 1);
      }
      if i: nat :| SeparatorAt(s, i) && i > 0 {
        assert t[i - 1..i + 2] == s[i..i + 3];
        assert SeparatorAt(t, i - 1);
      }
    }
  }

  predicate Numeric(s: Octets) { s != [] && forall i :: 0 <= i < |s| ==> '0' <= s[i] <= '9' }

  /** A host and a path, with a numeric port between them if there is a colon. */
  ghost predicate HostAndPath(s: Octets, host: Octets, port: Option<Octets>, path: Octets) {
    && s == host + (if port.Some? then ":" + port.value else []) + path
    && ':' !in host && '/' !in host && (path == [] || path[0] == '/')
    && (port.Some? ==> Numeric(port.value))
  }

  lemma BareHostExactly(s: Octets)
    ensures BareHost(s) <==> exists host, port, path :: HostAndPath(s, host, port, path)
  {
    if BareHost(s) {
      BareHostSplits(s);
    }
    if host, port, path :| HostAndPath(s, host, port, path) {
      SplitIsBare(s, host, port, path);
    }
  }

  lemma BareHostSplits(s: Octets)
    requires BareHost(s)
    ensures exists host, port, path :: HostAndPath(s, host, port, path)
  {
    var colon, slash := IndexOf(s, ':', 0, |s|), IndexOf(s, '/', 0, |s|);
    if colon < slash {
      assert s == s[..colon] + (":" + s[colon + 1..slash]) + s[slash..];
      assert HostAndPath(s, s[..colon], Some(s[colon + 1..slash]), s[slash..]);
    } else {
      assert s == s[..slash] + [] + s[slash..];
      assert HostAndPath(s, s[..slash], None, s[slash..]);
    }
  }

  lemma SplitIsBare(s: Octets, host: Octets, port: Option<Octets>, path: Octets)
    requires HostAndPath(s, host, port, path)
    ensures BareHost(s)
  {
    var mid := if port.Some? then ":" + port.value else [];
    var n := |host| + |mid|;
    assert forall k :: 0 <= k < |host| ==> s[k] == host[k];
    assert forall k :: 0 <= k < |mid| ==> s[|host| + k] == mid[k];
    assert path != [] ==> s[n] == path[0];
    IndexIs(s, '/', 0, |s|, n);
    if port.Some? {
      IndexIs(s, ':', 0, |s|, |host|);
      assert forall i :: |host| < i < n ==> s[i] == port.value[i - |host| - 1];
    }
  }

  ghost predicate Scheme(clean: Octets, scheme: Octets) {
    |clean| >= |scheme| && SameButCase(clean[..|scheme|], scheme)
  }

  /** What is stored: the clean text if it has a scheme and that is http or https, in any case; else with http in front
      if it is a host, perhaps with a numeric port, perhaps with a path. Nothing if that has 160 characters or more. */
  lemma NormalizedExactly(s: Octets, url: Octets)
    ensures var clean := Sanitized(s, 320);
            Normalized(s) == Some(url) <==>
              && clean != [] && |url| < 160
              && if exists i: nat :: SeparatorAt(clean, i)
                 then url == clean && (Scheme(clean, "http://") || Scheme(clean, "https://"))
                 else url == "http://" + clean && exists host, port, path :: HostAndPath(clean, host, port, path)
  {
    hide Sanitized, HasSeparator, BareHost, HostAndPath, SeparatorAt;
    var clean := Sanitized(s, 320);
    HasSeparatorExactly(clean);
    BareHostExactly(clean);
    StartsExactly(clean, HTTP);
    StartsExactly(clean, HTTPS);
    hide StartsWith, Scheme;
  }

  lemma StartsExactly(s: Octets, prefix: Octets)
    ensures StartsWith(s, prefix) <==> Scheme(s, prefix)
  {
    if |s| >= |prefix| {
      LowerExactly(s[..|prefix|], prefix);
    }
  }

  /** Any other scheme without "//" behind it is no address. */
  lemma SchemeRefused(scheme: Octets, rest: Octets)
    requires Clean(scheme + ":" + rest) && |scheme + ":" + rest| < 320 && ':' !in scheme && '/' !in scheme
    requires rest != [] ==> rest[0] != '/' && !('0' <= rest[0] <= '9')
    ensures Normalized(scheme + ":" + rest).None?
  {
    SchemeParts(scheme, rest);
    OtherScheme(scheme + ":" + rest, |scheme|);
  }

  lemma OtherScheme(s: Octets, c: nat)
    requires Clean(s) && c < |s| < 320 && s[c] == ':' && (forall k :: 0 <= k < c ==> s[k] != ':' && s[k] != '/')
    requires c + 1 < |s| ==> s[c + 1] != '/' && !('0' <= s[c + 1] <= '9')
    ensures Normalized(s).None?
  {
    hide Clean, Sanitized, HasSeparator, StartsWith, BareHost, HTTP, HTTPS;
    CleanStays(s, 320);
    NotBare(s, c);
    NotEither(s, c);
  }

  lemma SchemeParts(scheme: Octets, rest: Octets)
    requires ':' !in scheme && '/' !in scheme
    ensures var s, c := scheme + ":" + rest, |scheme|;
            && c < |s| && s[c] == ':' && (forall k :: 0 <= k < c ==> s[k] != ':' && s[k] != '/')
            && (if rest == [] then c + 1 == |s| else c + 1 < |s| && s[c + 1] == rest[0])
  {
    assert forall k :: 0 <= k < |scheme| ==> (scheme + ":" + rest)[k] == scheme[k];
  }

  lemma NotEither(s: Octets, c: nat)
    requires c < |s| && s[c] == ':' && (forall k :: 0 <= k < c ==> s[k] != ':') && (c + 1 < |s| ==> s[c + 1] != '/')
    ensures !StartsWith(s, HTTP) && !StartsWith(s, HTTPS)
  {
    hide StartsWith;
    NotWeb(s, c, HTTP, 4);
    NotWeb(s, c, HTTPS, 5);
  }

  lemma NotBare(s: Octets, c: nat)
    requires c < |s| && s[c] == ':' && forall k :: 0 <= k < c ==> s[k] != ':' && s[k] != '/'
    requires c + 1 < |s| ==> s[c + 1] != '/' && !('0' <= s[c + 1] <= '9')
    ensures !BareHost(s)
  {
    IndexIs(s, ':', 0, |s|, c);
    assert IndexOf(s, '/', 0, |s|) > c;
  }

  lemma NotWeb(s: Octets, c: nat, prefix: Octets, n: nat)
    requires c < |s| && s[c] == ':' && (forall k :: 0 <= k < c ==> s[k] != ':') && (c + 1 < |s| ==> s[c + 1] != '/')
    requires n + 1 < |prefix| && prefix[n] == ':' && prefix[n + 1] == '/' && ':' !in prefix[..n]
    ensures !StartsWith(s, prefix)
  {
    if |s| >= |prefix| && Lower(s[..|prefix|]) == Lower(prefix) {
      SameAt(s, prefix, n);
      SameAt(s, prefix, n + 1);
      if c < n {
        SameAt(s, prefix, c);
      }
    }
  }

  lemma SameAt(s: Octets, prefix: Octets, k: nat)
    requires |s| >= |prefix| > k && Lower(s[..|prefix|]) == Lower(prefix)
    ensures ToLower(s[k]) == ToLower(prefix[k])
  {
    assert Lower(s[..|prefix|])[k] == Lower(prefix)[k];
  }

  lemma ScriptRefused()
    ensures Normalized("javascript" + ":" + "alert(1)").None?
  {
    SchemeRefused("javascript", "alert(1)");
  }
}
