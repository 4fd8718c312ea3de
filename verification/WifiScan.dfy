/** The saved Wi-Fi networks, the candidates a scan makes of them, and the cycle that tries the candidates. */
module WifiScan {
  import opened Bytes
  import opened Text

  const WIFI_LIST_MAX := 8
  const CAND_MAX_ATTEMPTS := 2
  const SSID_MAX := 32
  const PASS_MAX := 64

  datatype Cred = Cred(ssid: Octets, pass: Octets)
  const NO_CRED := Cred([], [])

  /** A scan record: the network and its signal strength, a signed byte. */
  datatype Record = Record(ssid: Octets, rssi: int)

  datatype Candidate = Candidate(cred: Cred, rssi: int)

  // ---------------------------------------------------------------- the saved list

  predicate Names(list: seq<Cred>, i: nat, ssid: Octets)
    requires i < |list|
  {
    list[i].ssid == ssid
  }

  ghost predicate Saved(list: seq<Cred>, ssid: Octets) {
    exists i: nat :: i < |list| && Names(list, i, ssid)
  }

  /** No network twice, none without a name, and none longer than its field. */
  ghost predicate ListOk(list: seq<Cred>) {
    && |list| <= WIFI_LIST_MAX
    && (forall i, j :: 0 <= i < j < |list| ==> list[i].ssid != list[j].ssid)
    && forall i :: 0 <= i < |list| ==> 0 < |list[i].ssid| <= SSID_MAX && |list[i].pass| <= PASS_MAX
  }

  /** The list with the entries from index + 1 to i moved down by one. */
  function PartMoved(list: seq<Cred>, index: nat, i: nat): (r: seq<Cred>)
    requires index <= i < |list|
    ensures |r| == |list|
  {
    list[..index] + list[index + 1..i + 1] + list[i..]
  }

  lemma MovedDown(list: seq<Cred>, index: nat, i: nat)
    requires index <= i && i + 1 < |list|
    ensures var now := PartMoved(list, index, i);
            now[i := now[i + 1]] == PartMoved(list, index, i + 1)
  {
  }

  lemma RemovedLast(list: seq<Cred>, index: nat)
    requires index < |list|
    ensures PartMoved(list, index, |list| - 1)[..|list| - 1] == list[..index] + list[index + 1..]
    ensures PartMoved(list, index, index) == list
  {
  }

  lemma RemovedOk(list: seq<Cred>, index: nat)
    requires ListOk(list) && index < |list|
    ensures ListOk(list[..index] + list[index + 1..])
  {
  }

  /** The entry a name finds first. */
  ghost predicate FirstEntry(list: seq<Cred>, i: nat, ssid: Octets) {
    i < |list| && list[i].ssid == ssid && forall j :: 0 <= j < i ==> list[j].ssid != ssid
  }

  // ---------------------------------------------------------------- candidates

  /** rssi is the strongest signal among the records of this network. */
  ghost predicate Best(recs: seq<Record>, ssid: Octets, rssi: int) {
    && Record(ssid, rssi) in recs
    && forall r :: r in recs && r.ssid == ssid ==> r.rssi <= rssi
  }

  ghost predicate Seen(recs: seq<Record>, ssid: Octets) {
    exists r :: r in recs && r.ssid == ssid
  }

  predicate Distinct(cs: seq<Candidate>) {
    forall i, j :: 0 <= i < j < |cs| ==> cs[i].cred.ssid != cs[j].cred.ssid
  }

  ghost predicate Listed(cs: seq<Candidate>, ssid: Octets) {
    exists c :: c in cs && c.cred.ssid == ssid
  }

  /** A candidate is a saved network, with its saved password, at the best signal it was seen with. */
  ghost predicate Genuine(list: seq<Cred>, recs: seq<Record>, c: Candidate) {
    (exists i: nat :: FirstEntry(list, i, c.cred.ssid) && c.cred == list[i]) && Best(recs, c.cred.ssid, c.rssi)
  }

  /** Exactly the saved networks seen, each once. */
  ghost predicate Intersection(list: seq<Cred>, recs: seq<Record>, cs: seq<Candidate>) {
    && Distinct(cs)
    && (forall c :: c in cs ==> Genuine(list, recs, c))
    && forall ssid :: Saved(list, ssid) && Seen(recs, ssid) ==> Listed(cs, ssid)
  }

  predicate Descending(cs: seq<Candidate>) {
    forall i, j :: 0 <= i < j < |cs| ==> cs[i].rssi >= cs[j].rssi
  }

  ghost function NamesOf(cs: seq<Candidate>): (r: set<Octets>)
    ensures forall ssid :: ssid in r <==> Listed(cs, ssid)
  {
    set c | c in cs :: c.cred.ssid
  }

  ghost function SavedNames(list: seq<Cred>): (r: set<Octets>)
    ensures forall ssid :: ssid in r <==> Saved(list, ssid)
  {
    assert forall i: nat :: i < |list| ==> Names(list, i, list[i].ssid);
    set i: nat | i < |list| :: list[i].ssid
  }

  lemma NamesSplit(cs: seq<Candidate>)
    requires cs != []
    ensures var n := |cs| - 1;
            NamesOf(cs) == NamesOf(cs[..n]) + {cs[n].cred.ssid}
  {
    var n := |cs| - 1;
    assert forall c :: c in cs <==> c in cs[..n] || c == cs[n];
  }

  lemma {:induction false} DistinctNames(cs: seq<Candidate>)
    requires Distinct(cs)
    ensures |NamesOf(cs)| == |cs|
  {
    if cs != [] {
      var n := |cs| - 1;
      DistinctNames(cs[..n]);
      NamesSplit(cs);
    }
  }

  lemma {:induction false} SavedNamesBound(list: seq<Cred>)
    ensures |SavedNames(list)| <= |list|
  {
    if list != [] {
      var n := |list| - 1;
      SavedNamesBound(list[..n]);
      forall ssid | ssid in SavedNames(list)
        ensures ssid in SavedNames(list[..n]) + {list[n].ssid}
      {
        var i: nat :| i < |list| && Names(list, i, ssid);
        assert i < n ==> Names(list[..n], i, ssid);
      }
      Smaller(SavedNames(list), SavedNames(list[..n]) + {list[n].ssid});
    }
  }

  lemma {:induction false} Smaller<T>(a: set<T>, b: set<T>)
    requires a <= b
    ensures |a| <= |b|
    ensures a != b ==> |a| < |b|
  {
    if a == {} {
    } else {
      var x :| x in a;
      Smaller(a - {x}, b - {x});
    }
  }

  /** The cap never bites: while a saved network is still missing among the candidates there is room for it. */
  lemma RoomForOneMore(list: seq<Cred>, cs: seq<Candidate>, ssid: Octets)
    requires |list| <= WIFI_LIST_MAX && Distinct(cs) && Saved(list, ssid) && !Listed(cs, ssid)
    requires forall c :: c in cs ==> Saved(list, c.cred.ssid)
    ensures |cs| < WIFI_LIST_MAX
  {
    hide Saved, Listed;
    DistinctNames(cs);
    SavedNamesBound(list);
    forall s | s in NamesOf(cs)
      ensures s in SavedNames(list)
    {
      assert Listed(cs, s);
      ListedIsSaved(list, cs, s);
    }
    Smaller(NamesOf(cs), SavedNames(list));
  }

  lemma ListedIsSaved(list: seq<Cred>, cs: seq<Candidate>, ssid: Octets)
    requires Listed(cs, ssid) && forall c :: c in cs ==> Saved(list, c.cred.ssid)
    ensures Saved(list, ssid)
  {
  }

  // ---------------------------------------------------------------- insertion sort

  /** c placed behind everything at least as strong. */
  ghost function Inserted(cs: seq<Candidate>, c: Candidate): (r: seq<Candidate>)
    ensures |r| == |cs| + 1
  {
    if cs == [] || cs[|cs| - 1].rssi >= c.rssi then cs + [c]
    else Inserted(cs[..|cs| - 1], c) + [cs[|cs| - 1]]
  }

  ghost function Sorted(cs: seq<Candidate>): (r: seq<Candidate>)
    ensures |r| == |cs|
  {
    if cs == [] then [] else Inserted(Sorted(cs[..|cs| - 1]), cs[|cs| - 1])
  }

  /** The place it takes. */
  lemma {:induction false} InsertedAt(cs: seq<Candidate>, c: Candidate, p: nat)
    requires p <= |cs| && (p > 0 ==> cs[p - 1].rssi >= c.rssi)
    requires forall i :: p <= i < |cs| ==> cs[i].rssi < c.rssi
    ensures Inserted(cs, c) == cs[..p] + [c] + cs[p..]
    decreases |cs|
  {
    if p == |cs| {
      assert cs[..p] == cs && cs[p..] == [];
    } else {
      var n := |cs| - 1;
      InsertedAt(cs[..n], c, p);
      assert cs[..n][..p] == cs[..p] && cs[..n][p..] + [cs[n]] == cs[p..];
    }
  }

  /** Entries p to i - 1 of was, all weaker than entry i, moved up by one; slot p is free. */
  ghost predicate Slid(was: seq<Candidate>, now: seq<Candidate>, i: nat, p: nat) {
    && p <= i < |was| == |now|
    && (forall k :: p <= k < i ==> was[k].rssi < was[i].rssi)
    && (forall k :: 0 <= k < p || i < k < |was| ==> now[k] == was[k])
    && forall k :: p < k <= i ==> now[k] == was[k - 1]
  }

  lemma SlidOnce(was: seq<Candidate>, now: seq<Candidate>, i: nat, p: nat)
    requires Slid(was, now, i, p) && p > 0 && now[p - 1].rssi < was[i].rssi
    ensures Slid(was, now[p := now[p - 1]], i, p - 1)
  {
  }

  /** Setting entry i in the free slot inserts it. */
  lemma SlidIn(was: seq<Candidate>, now: seq<Candidate>, i: nat, p: nat)
    requires Slid(was, now, i, p) && (p > 0 ==> now[p - 1].rssi >= was[i].rssi)
    ensures now[p := was[i]] == Inserted(was[..i], was[i]) + was[i + 1..]
  {
    hide Inserted;
    InsertedAt(was[..i], was[i], p);
    assert was[..i][..p] == was[..p] && was[..i][p..] == was[p..i];
  }

  lemma {:induction false} InsertedKeeps(cs: seq<Candidate>, c: Candidate)
    ensures multiset(Inserted(cs, c)) == multiset(cs) + multiset{c}
    decreases |cs|
  {
    if cs == [] || cs[|cs| - 1].rssi >= c.rssi {
    } else {
      var n := |cs| - 1;
      InsertedKeeps(cs[..n], c);
      assert cs == cs[..n] + [cs[n]];
    }
  }

  lemma {:induction false} InsertedDescending(cs: seq<Candidate>, c: Candidate)
    requires Descending(cs)
    ensures Descending(Inserted(cs, c))
    decreases |cs|
  {
    if cs == [] || cs[|cs| - 1].rssi >= c.rssi {
    } else {
      var n := |cs| - 1;
      InsertedDescending(cs[..n], c);
      InsertedKeeps(cs[..n], c);
      var r := Inserted(cs[..n], c);
      forall i | 0 <= i < |r|
        ensures r[i].rssi >= cs[n].rssi
      {
        assert r[i] in multiset(r);
        assert r[i] in cs[..n] || r[i] == c;
      }
    }
  }

  /** Sorting leaves the same candidates, strongest first. */
  lemma {:induction false} SortedIsSorted(cs: seq<Candidate>)
    ensures multiset(Sorted(cs)) == multiset(cs) && Descending(Sorted(cs))
  {
    if cs != [] {
      var n := |cs| - 1;
      SortedIsSorted(cs[..n]);
      InsertedKeeps(Sorted(cs[..n]), cs[n]);
      InsertedDescending(Sorted(cs[..n]), cs[n]);
      assert cs == cs[..n] + [cs[n]];
    }
  }

  /** Candidates in another order are the same candidates. */
  lemma SameIntersection(list: seq<Cred>, recs: seq<Record>, cs: seq<Candidate>, ds: seq<Candidate>)
    requires Intersection(list, recs, cs) && multiset(ds) == multiset(cs)
    ensures Intersection(list, recs, ds)
  {
    hide Genuine, Saved, Seen;
    assert forall c :: c in ds <==> c in multiset(ds);
    assert forall c :: c in cs <==> c in multiset(cs);
    forall ssid | Listed(cs, ssid)
      ensures Listed(ds, ssid)
    {
      var c :| c in cs && c.cred.ssid == ssid;
      assert c in ds;
    }
    assert NamesOf(ds) == NamesOf(cs) by {
      assert forall c :: c in ds <==> c in cs;
    }
    DistinctNames(cs);
    assert |ds| == |multiset(ds)| == |multiset(cs)| == |cs|;
    NamesDistinct(ds);
  }

  /** If one element makes a set of at most n elements one of n + 1, it was not in it. */
  lemma Grew<T>(a: set<T>, x: T, n: nat)
    requires |a| <= n && |a + {x}| == n + 1
    ensures x !in a && |a| == n
  {
    assert x in a ==> a + {x} == a;
  }

  lemma ListedAt(cs: seq<Candidate>, i: nat)
    requires i < |cs|
    ensures Listed(cs, cs[i].cred.ssid)
  {
    assert cs[i] in cs;
  }

  /** As many names as candidates: no name twice. */
  lemma {:induction false} NamesDistinct(cs: seq<Candidate>)
    requires |NamesOf(cs)| == |cs|
    ensures Distinct(cs)
  {
    if cs != [] {
      hide NamesOf, Listed, Distinct;
      var n := |cs| - 1;
      NamesSplit(cs);
      NamesBound(cs[..n]);
      Grew(NamesOf(cs[..n]), cs[n].cred.ssid, n);
      NamesDistinct(cs[..n]);
      DistinctAgain(cs);
    } else {
      NoneDistinct(cs);
    }
  }

  lemma NoneDistinct(cs: seq<Candidate>)
    requires cs == []
    ensures Distinct(cs)
  {
  }

  lemma DistinctAgain(cs: seq<Candidate>)
    requires cs != []
    requires Distinct(cs[..|cs| - 1]) && cs[|cs| - 1].cred.ssid !in NamesOf(cs[..|cs| - 1])
    ensures Distinct(cs)
  {
    hide NamesOf, Listed;
    var n := |cs| - 1;
    forall i | 0 <= i < n
      ensures cs[i].cred.ssid != cs[n].cred.ssid
    {
      ListedAt(cs[..n], i);
    }
    assert forall i :: 0 <= i < n ==> cs[..n][i] == cs[i];
  }

  lemma {:induction false} NamesBound(cs: seq<Candidate>)
    ensures |NamesOf(cs)| <= |cs|
  {
    if cs != [] {
      var n := |cs| - 1;
      NamesBound(cs[..n]);
      NamesSplit(cs);
    }
  }

  lemma SlidNone(was: seq<Candidate>, i: nat)
    requires i < |was|
    ensures Slid(was, was, i, i)
  {
  }

  lemma InBounds(saved: seq<Cred>, i: nat, ssid: Octets)
    requires FirstEntry(saved, i, ssid)
    ensures i < |saved|
  {
  }

  // ---------------------------------------------------------------- one scan record

  /** A record of a network nobody saved changes nothing. */
  lemma RecordUnsaved(list: seq<Cred>, recs: seq<Record>, cs: seq<Candidate>, r: Record)
    requires Intersection(list, recs, cs) && !Saved(list, r.ssid)
    ensures Intersection(list, recs + [r], cs)
  {
    hide Distinct, Listed;
    forall c | c in cs
      ensures Genuine(list, recs + [r], c)
    {
      assert Genuine(list, recs, c);
      var i: nat :| FirstEntry(list, i, c.cred.ssid) && c.cred == list[i];
      assert Names(list, i, c.cred.ssid);
    }
    SeenGrows(recs, r);
  }

  lemma SeenGrows(recs: seq<Record>, r: Record)
    ensures forall ssid :: Seen(recs + [r], ssid) <==> Seen(recs, ssid) || ssid == r.ssid
  {
    assert r in recs + [r];
    forall ssid | Seen(recs, ssid)
      ensures Seen(recs + [r], ssid)
    {
      var q :| q in recs && q.ssid == ssid;
      assert q in recs + [r];
    }
  }

  /** One of a network that is a candidate already: its signal becomes the better of the two. */
  lemma RecordAgain(list: seq<Cred>, recs: seq<Record>, cs: seq<Candidate>, r: Record, e: nat)
    requires Intersection(list, recs, cs) && e < |cs| && cs[e].cred.ssid == r.ssid
    ensures Intersection(list, recs + [r], if r.rssi > cs[e].rssi then cs[e := cs[e].(rssi := r.rssi)] else cs)
  {
    hide Saved, FirstEntry;
    var ds := if r.rssi > cs[e].rssi then cs[e := cs[e].(rssi := r.rssi)] else cs;
    forall k | 0 <= k < |ds|
      ensures Genuine(list, recs + [r], ds[k])
    {
      assert Genuine(list, recs, cs[k]);
      assert k != e ==> cs[k].cred.ssid != r.ssid;
    }
    SeenGrows(recs, r);
    forall ssid | Listed(cs, ssid)
      ensures Listed(ds, ssid)
    {
      var k :| 0 <= k < |cs| && cs[k].cred.ssid == ssid;
      assert ds[k] in ds;
    }
    assert Listed(cs, r.ssid) by {
      assert cs[e] in cs;
    }
  }

  /** The first one of a saved network: a new candidate. */
  lemma RecordNew(list: seq<Cred>, recs: seq<Record>, cs: seq<Candidate>, r: Record, i: nat)
    requires Intersection(list, recs, cs) && FirstEntry(list, i, r.ssid) && !Listed(cs, r.ssid)
    ensures Intersection(list, recs + [r], cs + [Candidate(list[i], r.rssi)])
  {
    var c := Candidate(list[i], r.rssi);
    var ds := cs + [c];
    assert Names(list, i, r.ssid);
    assert !Seen(recs, r.ssid);
    forall d | d in ds
      ensures Genuine(list, recs + [r], d)
    {
      if d in cs {
        assert Genuine(list, recs, d);
        assert d.cred.ssid != r.ssid;
      } else {
        assert r in recs + [r];
      }
    }
    SeenGrows(recs, r);
    forall ssid | Listed(cs, ssid) || ssid == r.ssid
      ensures Listed(ds, ssid)
    {
      if ssid == r.ssid {
        assert c in ds;
      } else {
        var d :| d in cs && d.cred.ssid == ssid;
        assert d in ds;
      }
    }
    assert forall k :: 0 <= k < |cs| ==> cs[k] in cs;
  }

  lemma CandidatesSaved(list: seq<Cred>, recs: seq<Record>, cs: seq<Candidate>)
    requires Intersection(list, recs, cs)
    ensures Distinct(cs) && forall c :: c in cs ==> Saved(list, c.cred.ssid)
  {
    hide Distinct, Listed, Best;
    forall c | c in cs
      ensures Saved(list, c.cred.ssid)
    {
      assert Genuine(list, recs, c);
      var i: nat :| FirstEntry(list, i, c.cred.ssid) && c.cred == list[i];
      assert Names(list, i, c.cred.ssid);
    }
  }

  // ---------------------------------------------------------------- the module's state

  function Zip(creds: seq<Cred>, rssis: seq<int>): (r: seq<Candidate>)
    requires |creds| == |rssis|
    ensures |r| == |creds| && forall c :: 0 <= c < |r| ==> r[c] == Candidate(creds[c], rssis[c])
  {
    seq(|creds|, c requires 0 <= c < |creds| => Candidate(creds[c], rssis[c]))
  }

  const SCAN_MAX_RECORDS := 24

  datatype AppState = WifiConnecting | WifiFailed | WaitBt | Bridge | BridgeNoWifi | Other

  /** What a handler set going. */
  datatype Outcome = Nothing | Connecting | RetryLater | CycleFailed | ScanStarted

  class Wifi {
    var list: seq<Cred>
    var scanInProgress: bool
    const candidates: array<Cred>
    const candRssi: array<int>
    var candCount: nat
    var candIndex: nat
    var candAttempts: nat
    /** The candidates esp_wifi_connect was called for in this cycle, by index, oldest first. */
    ghost var tries: seq<nat>

    ghost predicate Valid()
      reads this
    {
      && candidates.Length == WIFI_LIST_MAX && candRssi.Length == WIFI_LIST_MAX
      && ListOk(list) && candCount <= WIFI_LIST_MAX && (scanInProgress ==> candCount == 0)
      && (candCount > 0 ==>
            && candIndex < candCount && candAttempts < CAND_MAX_ATTEMPTS
            && |tries| == CAND_MAX_ATTEMPTS * candIndex + candAttempts + 1
            && forall m :: 0 <= m < |tries| ==> tries[m] == m / CAND_MAX_ATTEMPTS)
    }

    /** The candidate list in the two arrays. */
    ghost function Cands(): (r: seq<Candidate>)
      requires candCount <= candidates.Length && candCount <= candRssi.Length
      reads this, candidates, candRssi
      ensures |r| == candCount
      ensures forall c :: 0 <= c < candCount ==> r[c] == Candidate(candidates[c], candRssi[c])
    {
      Zip(candidates[..candCount], candRssi[..candCount])
    }

    constructor (saved: seq<Cred>)
      requires ListOk(saved)
      ensures Valid() && list == saved && candCount == 0 && !scanInProgress && fresh(candidates) && fresh(candRssi)
    {
      list, scanInProgress := saved, false;
      candidates, candRssi := new Cred[WIFI_LIST_MAX](_ => NO_CRED), new int[WIFI_LIST_MAX](_ => 0);
      candCount, candIndex, candAttempts, tries := 0, 0, 0, [];
    }

    /** The index of the first saved entry of this name. */
    method FindSaved(saved: seq<Cred>, ssid: Octets) returns (idx: int)
      ensures idx >= 0 ==> FirstEntry(saved, idx, ssid) && Saved(saved, ssid)
      ensures idx < 0 ==> !Saved(saved, ssid) && forall j :: 0 <= j < |saved| ==> saved[j].ssid != ssid
    {
      for i := 0 to |saved|
        invariant forall j :: 0 <= j < i ==> saved[j].ssid != ssid
      {
        if saved[i].ssid == ssid {
          assert Names(saved, i, ssid);
          return i;
        }
      }
      return -1;
    }

    /** wifi_list_add, as far as the list is concerned. */
    method Add(ssid: Octets, pass: Option<Octets>) returns (ok: bool)
      requires Valid()
      modifies `list
      ensures Valid()
      ensures ok <==> 0 < |ssid| <= SSID_MAX && (pass.Some? ==> |pass.value| <= PASS_MAX)
                      && (Saved(old(list), ssid) || |old(list)| < WIFI_LIST_MAX)
      ensures var cred := Cred(ssid, if pass.Some? then pass.value else []);
              if !ok then list == old(list)
              else if Saved(old(list), ssid) then
                exists i: nat :: FirstEntry(old(list), i, ssid) && list == old(list)[i := cred]
              else list == old(list) + [cred]
    {
      if ssid == [] || |ssid| > SSID_MAX {
        return false;
      }
      if pass.Some? && |pass.value| > PASS_MAX {
        return false;
      }
      var idx := FindSaved(list, ssid);
      var cred := Cred(ssid, if pass.Some? then pass.value else []);
      if idx < 0 && |list| < WIFI_LIST_MAX {
        list := list + [cred];
        return true;
      }
      if idx >= 0 {
        list := list[idx := cred];
        return true;
      }
      return false;
    }

    /** wifi_list_remove, as far as the list is concerned. */
    method Remove(index: int) returns (ok: bool)
      requires Valid()
      modifies `list
      ensures Valid()
      ensures ok <==> 0 <= index < |old(list)|
      ensures list == if ok then old(list)[..index] + old(list)[index + 1..] else old(list)
    {
      hide ListOk, PartMoved;
      if index < 0 || index >= |list| {
        return false;
      }
      ghost var was := list;
      RemovedLast(was, index);
      var n := |list|;
      for i := index to n - 1
        invariant list == PartMoved(was, index, i)
      {
        MovedDown(was, index, i);
        list := list[i := list[i + 1]];
      }
      list := list[..n - 1];
      RemovedOk(was, index);
      return true;
    }

    /** wifi_list_clear: the saved list only; a cycle under way keeps its candidates. */
    method ClearList()
      requires Valid()
      modifies `list
      ensures Valid() && list == []
    {
      list := [];
    }

    /** wifi_connect_begin; started is what esp_wifi_scan_start says. */
    method ConnectBegin(connected: bool, negotiating: bool, started: bool) returns (o: Outcome)
      requires Valid()
      modifies `scanInProgress
      ensures Valid()
      ensures scanInProgress <==> old(scanInProgress) || o == ScanStarted
      ensures o == ScanStarted <==>
              list != [] && !connected && !old(scanInProgress) && candCount == 0 && !negotiating && started
    {
      if list == [] {
        return Nothing;
      }
      if connected || scanInProgress || candCount > 0 {
        return Nothing;
      }
      if negotiating {
        return RetryLater;
      }
      scanInProgress := started;
      return if started then ScanStarted else CycleFailed;
    }

    /** One scan record against the saved list. */
    method ConsiderRecord(saved: seq<Cred>, rec: Record, ghost recs: seq<Record>)
      requires candidates.Length == WIFI_LIST_MAX && candRssi.Length == WIFI_LIST_MAX && candCount <= WIFI_LIST_MAX
      requires |saved| <= WIFI_LIST_MAX && Intersection(saved, recs, Cands())
      modifies `candCount, candidates, candRssi
      ensures candCount <= WIFI_LIST_MAX && Intersection(saved, recs + [rec], Cands())
    {
      hide Intersection, FirstEntry, Saved;
      var s := FindSaved(saved, rec.ssid);
      ghost var was := Cands();
      if s < 0 {
        RecordUnsaved(saved, recs, was, rec);
        return;
      }
      var existing := FindCandidate(rec.ssid);
      if existing >= 0 {
        RecordAgain(saved, recs, was, rec, existing);
        if rec.rssi > candRssi[existing] {
          candRssi[existing] := rec.rssi;
          assert Cands() == was[existing := was[existing].(rssi := rec.rssi)];
        }
        return;
      }
      CandidatesSaved(saved, recs, was);
      RoomForOneMore(saved, was, rec.ssid);
      RecordNew(saved, recs, was, rec, s);
      if candCount < WIFI_LIST_MAX {
        InBounds(saved, s, rec.ssid);
        candidates[candCount] := saved[s];
        candRssi[candCount] := rec.rssi;
        candCount := candCount + 1;
        assert Cands() == was + [Candidate(saved[s], rec.rssi)];
      }
    }

    /** The index of the candidate of this name. */
    method FindCandidate(ssid: Octets) returns (idx: int)
      requires candCount <= candidates.Length && candCount <= candRssi.Length
      ensures idx >= 0 ==> idx < candCount && candidates[idx].ssid == ssid
      ensures idx < 0 ==> !Listed(Cands(), ssid)
    {
      for c := 0 to candCount
        invariant forall d :: 0 <= d < c ==> candidates[d].ssid != ssid
      {
        if candidates[c].ssid == ssid {
          return c;
        }
      }
      return -1;
    }

    /** One round of the insertion sort: entry i moves down to its place among the sorted ones below it. */
    method InsertEntry(i: nat)
      requires candidates.Length == WIFI_LIST_MAX && candRssi.Length == WIFI_LIST_MAX && i < candCount <= WIFI_LIST_MAX
      modifies candidates, candRssi
      ensures Cands() == Inserted(old(Cands()[..i]), old(Cands()[i])) + old(Cands()[i + 1..])
    {
      hide Inserted, Zip, Slid;
      ghost var was := Cands();
      var c, r := candidates[i], candRssi[i];
      var j: int := i - 1;
      SlidNone(was, i);
      while j >= 0 && candRssi[j] < r
        invariant -1 <= j < i && Slid(was, Cands(), i, j + 1)
      {
        SlidOnce(was, Cands(), i, j + 1);
        ghost var next := Cands()[j + 1 := Cands()[j]];
        candidates[j + 1] := candidates[j];
        candRssi[j + 1] := candRssi[j];
        assert Cands() == next;
        j := j - 1;
      }
      SlidIn(was, Cands(), i, j + 1);
      ghost var final := Cands()[j + 1 := was[i]];
      candidates[j + 1] := c;
      candRssi[j + 1] := r;
      assert Cands() == final;
    }

    /** The insertion sort of both arrays, strongest signal first. */
    method SortCandidates()
      requires candidates.Length == WIFI_LIST_MAX && candRssi.Length == WIFI_LIST_MAX && candCount <= WIFI_LIST_MAX
      modifies candidates, candRssi
      ensures Cands() == Sorted(old(Cands()))
    {
      hide Inserted, Zip;
      ghost var was := Cands();
      if candCount == 0 {
        return;
      }
      assert was[..1] == [was[0]] && Inserted([], was[0]) == [was[0]] by {
        InsertedAt([], was[0], 0);
      }
      assert Sorted(was[..1]) == was[..1] by {
        assert was[..1][..0] == [];
      }
      for i := 1 to candCount
        invariant Cands() == Sorted(was[..i]) + was[i..]
      {
        assert Cands()[..i] == Sorted(was[..i]) && Cands()[i] == was[i] && Cands()[i + 1..] == was[i + 1..];
        InsertEntry(i);
        assert was[..i + 1][..i] == was[..i];
      }
      assert was[..candCount] == was;
    }

    /** wifi_try_candidate */
    method TryCandidate(negotiating: bool) returns (o: Outcome)
      requires candIndex < candCount
      modifies `candCount, `tries
      ensures if negotiating then o == RetryLater && candCount == 0 && tries == old(tries)
              else o == Connecting && candCount == old(candCount) && tries == old(tries) + [candIndex]
    {
      if negotiating {
        candCount := 0;
        return RetryLater;
      }
      tries := tries + [candIndex];
      return Connecting;
    }

    /** handle_scan_done; found is what the driver has seen. */
    method ScanDone(found: seq<Record>, negotiating: bool) returns (o: Outcome, ghost cs: seq<Candidate>)
      requires Valid()
      modifies this, candidates, candRssi
      ensures Valid() && list == old(list)
      ensures !old(scanInProgress) ==> o == Nothing && candCount == old(candCount) && Cands() == old(Cands())
      ensures old(scanInProgress) ==>
                && Intersection(list, found[..if |found| > SCAN_MAX_RECORDS then SCAN_MAX_RECORDS else |found|], cs)
                && Descending(cs) && !scanInProgress
                && o == (if cs == [] then CycleFailed else if negotiating then RetryLater else Connecting)
                && Cands() == (if o == Connecting then cs else [])
                && (o == Connecting ==> candIndex == 0 && tries == [0])
    {
      hide Intersection, Sorted, Descending, ListOk, Zip;
      cs := [];
      if !scanInProgress {
        return Nothing, cs;
      }
      scanInProgress := false;
      var n := if |found| > SCAN_MAX_RECORDS then SCAN_MAX_RECORDS else |found|;
      CollectCandidates(found[..n]);
      ghost var collected := Cands();
      SortCandidates();
      cs := Cands();
      SortedIsSorted(collected);
      SameIntersection(list, found[..n], collected, cs);
      if candCount == 0 {
        return CycleFailed, cs;
      }
      candIndex, candAttempts, tries := 0, 0, [];
      o := TryCandidate(negotiating);
    }

    method CollectCandidates(recs: seq<Record>)
      requires Valid()
      modifies `candCount, candidates, candRssi
      ensures candCount <= WIFI_LIST_MAX && Intersection(list, recs, Cands())
    {
      hide Intersection;
      candCount := 0;
      NothingSeen(list, Cands());
      for i := 0 to |recs|
        invariant candCount <= WIFI_LIST_MAX && Intersection(list, recs[..i], Cands())
      {
        ConsiderRecord(list, recs[i], recs[..i]);
        assert recs[..i] + [recs[i]] == recs[..i + 1];
      }
      assert recs[..|recs|] == recs;
    }

    /** The disconnect event; ignore is the flag of a deliberate disconnect. */
    method Disconnected(ignore: bool, st: AppState, negotiating: bool) returns (o: Outcome)
      requires Valid()
      modifies `candCount, `candIndex, `candAttempts, `tries
      ensures Valid()
      // a cycle goes on with the same candidates, or ends: postponed, or having tried each of them twice
      ensures old(candCount) > 0 && candCount > 0 && o == Connecting ==>
                candCount == old(candCount) && |tries| == |old(tries)| + 1
      ensures o == CycleFailed && old(candCount) > 0 ==>
                && |old(tries)| == CAND_MAX_ATTEMPTS * old(candCount)
                && forall m :: 0 <= m < |old(tries)| ==> old(tries)[m] == m / CAND_MAX_ATTEMPTS
      ensures var cycling := !ignore && st in {WifiConnecting, BridgeNoWifi, WaitBt, WifiFailed};
              var exhausted := |old(tries)| == CAND_MAX_ATTEMPTS * old(candCount);
              && (o == CycleFailed <==> cycling && (old(candCount) == 0 || (!negotiating && exhausted)))
              && (o == RetryLater
                  <==> (cycling && old(candCount) > 0 && negotiating) || (!ignore && st == Bridge && list != []))
      ensures o == RetryLater || o == CycleFailed ==> candCount == 0
      ensures o == Nothing ==> candCount == old(candCount) || candCount == 0
      ensures o == Connecting <==>
              !ignore && st in {WifiConnecting, BridgeNoWifi, WaitBt, WifiFailed} && old(candCount) > 0 && !negotiating
              && |old(tries)| < CAND_MAX_ATTEMPTS * old(candCount)
    {
      if ignore {
        return Nothing;
      }
      if st == WifiConnecting || st == BridgeNoWifi || st == WaitBt || st == WifiFailed {
        if candCount > 0 {
          if negotiating {
            candCount := 0;
            return RetryLater;
          }
          candAttempts := candAttempts + 1;
          if candAttempts < CAND_MAX_ATTEMPTS {
            tries := tries + [candIndex];
            return Connecting;
          }
          candAttempts := 0;
          candIndex := candIndex + 1;
          if candIndex < candCount {
            o := TryCandidate(negotiating);
            return;
          }
          candCount := 0;
        }
        return CycleFailed;
      } else if st == Bridge {
        if list == [] {
          return Nothing;
        }
        candCount := 0;
        return RetryLater;
      }
      return Nothing;
    }

    /** The station got its address: the cycle is over. */
    method GotIp()
      requires Valid()
      modifies `candCount
      ensures Valid() && candCount == 0
    {
      candCount := 0;
    }

    /** wifi_soft_reset, as far as this state is concerned. */
    method SoftReset()
      requires Valid()
      modifies `candCount, `scanInProgress
      ensures Valid() && candCount == 0 && !scanInProgress
    {
      scanInProgress, candCount := false, 0;
    }
  }

  lemma NothingSeen(list: seq<Cred>, cs: seq<Candidate>)
    requires cs == []
    ensures Intersection(list, [], cs)
  {
  }
}
