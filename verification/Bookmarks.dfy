/** The bookmark list as single keys on flash, written one at a time, with the power able to go at any point. */
module Bookmarks {
  import opened Bytes
  import opened Text
  import opened BookmarkText

  const BM_MAX := 24

  /** The flash keys: "bm00" onward, and the count. Each write of a key is atomic. */
  datatype Flash = Flash(entries: map<nat, Octets>, count: Option<byte>)

  /** The count a boot would load. */
  function Count(f: Flash): (n: nat)
    ensures n <= BM_MAX
  {
    if f.count.None? then 0 else if f.count.value > BM_MAX then BM_MAX else f.count.value
  }

  function Record(title: Octets, url: Octets): Octets { title + [NEWLINE] + url }

  /** A record as bookmarks_set writes them. */
  ghost predicate IsRecord(raw: Octets, title: Octets, url: Octets) {
    raw == Record(title, url) && NEWLINE !in title && |title| < BM_TITLE_MAX && url != [] && |url| < BM_URL_MAX
  }

  ghost predicate RealEntry(raw: Octets) { exists title, url :: IsRecord(raw, title, url) }

  /** Every index below the stored count reads back a real entry. */
  ghost predicate Sound(f: Flash) {
    forall i: nat :: i < Count(f) ==> i in f.entries && RealEntry(f.entries[i])
  }

  /** The list a boot would see. */
  ghost function ListOf(f: Flash): (r: seq<Octets>)
    requires Sound(f)
    ensures |r| == Count(f)
    ensures forall i :: 0 <= i < |r| ==> r[i] == f.entries[i]
  {
    seq(Count(f), i requires 0 <= i < Count(f) => f.entries[i])
  }

  /** bookmarks_get on a stored record: the title up to the first newline, the address after it, each cut to
      its buffer; a record without newline is all address. */
  ghost function Read(raw: Octets): (Octets, Octets) {
    var sep := IndexOf(raw, NEWLINE, 0, |raw|);
    if sep < |raw| then (Cut(raw[..sep], BM_TITLE_MAX - 1), Cut(raw[sep + 1..], BM_URL_MAX - 1))
    else ([], Cut(raw, BM_URL_MAX - 1))
  }

  /** The separator cannot occur in a title, so a record reads back as it was written. */
  lemma ReadRecord(raw: Octets, title: Octets, url: Octets)
    requires IsRecord(raw, title, url)
    ensures Read(raw) == (title, url) && |raw| < BM_RAW_MAX
  {
    IndexIs(raw, NEWLINE, 0, |raw|, |title|);
    assert raw[..|title|] == title && raw[|title| + 1..] == url;
  }

  /** What a cleaned title and an accepted address make is a record. */
  lemma SetMakesRecord(title: Octets, url: Octets)
    requires Normalized(url).Some?
    ensures var t, u := Sanitized(title, BM_TITLE_MAX), Normalized(url).value;
            IsRecord(Record(t, u), t, u)
  {
    SanitizedPrintable(title, BM_TITLE_MAX);
    AcceptedIsClean(url);
  }

  /** After a successful set, get returns exactly the cleaned title and the normalized address. */
  lemma SetReadsBack(title: Octets, url: Octets)
    requires Normalized(url).Some?
    ensures var t, u := Sanitized(title, BM_TITLE_MAX), Normalized(url).value;
            Read(Record(t, u)) == (t, u) && |Record(t, u)| < BM_RAW_MAX
  {
    hide Sanitized, Normalized, Read;
    var t, u := Sanitized(title, BM_TITLE_MAX), Normalized(url).value;
    SetMakesRecord(title, url);
    ReadRecord(Record(t, u), t, u);
  }

  /** Removing i from a list, with k entries moved down so far. */
  ghost function Shifted(list: seq<Octets>, i: nat, k: nat): seq<Octets>
    requires i + 1 + k <= |list|
  {
    list[..i] + list[i + 1..i + 1 + k] + list[i + k..|list| - 1]
  }

  /** A list some removal of i may leave behind if it is cut short. */
  ghost predicate PartlyRemoved(list: seq<Octets>, i: nat, now: seq<Octets>)
    requires i < |list|
  {
    now == list || exists k: nat :: i + 1 + k <= |list| && now == Shifted(list, i, k)
  }

  lemma RemovedCompletely(list: seq<Octets>, i: nat)
    requires i < |list|
    ensures Shifted(list, i, |list| - 1 - i) == list[..i] + list[i + 1..]
  {
  }

  /** Writing an entry below the count changes that entry of the list; above it, nothing. */
  lemma EntryWritten(f: Flash, i: nat, raw: Octets)
    requires Sound(f) && RealEntry(raw)
    ensures var g := f.(entries := f.entries[i := raw]);
            Sound(g) && ListOf(g) == if i < Count(f) then ListOf(f)[i := raw] else ListOf(f)
  {
    hide RealEntry;
  }

  /** Raising the count by one takes in the entry just written. */
  lemma CountRaised(f: Flash, raw: Octets)
    requires Sound(f) && Count(f) < BM_MAX && Count(f) in f.entries && f.entries[Count(f)] == raw && RealEntry(raw)
    ensures var g := f.(count := Some(Count(f) + 1));
            Sound(g) && Count(g) == Count(f) + 1 && ListOf(g) == ListOf(f) + [raw]
  {
    hide RealEntry;
  }

  /** Lowering it by one hides the last entry, which stays on flash. */
  lemma CountLowered(f: Flash)
    requires Sound(f) && Count(f) > 0
    ensures var g, last := f.(count := Some(Count(f) - 1)), Count(f) - 1;
            Sound(g) && Count(g) == last && ListOf(g) == ListOf(f)[..last]
            && last in g.entries && g.entries[last] == ListOf(f)[last]
  {
    hide RealEntry;
  }

  lemma EntryErased(f: Flash, i: nat)
    requires Sound(f) && i >= Count(f)
    ensures var g := f.(entries := f.entries - {i});
            Sound(g) && ListOf(g) == ListOf(f)
  {
    hide RealEntry;
  }

  lemma ShiftedOnce(list: seq<Octets>, i: nat, k: nat)
    requires i + 1 + k < |list|
    ensures |Shifted(list, i, k)| == |list| - 1
    ensures Shifted(list, i, k)[i + k := list[i + k + 1]] == Shifted(list, i, k + 1)
  {
  }

  /** During a removal of index, with the slots below j done: the list so far, and the entries still to move. */
  ghost predicate MovedTo(f: Flash, list: seq<Octets>, index: nat, j: nat) {
    && index <= j < |list| && Sound(f) && Count(f) == |list| - 1
    && ListOf(f) == Shifted(list, index, j - index)
    && forall m: nat :: j < m < |list| ==> m in f.entries && f.entries[m] == list[m] && RealEntry(list[m])
  }

  lemma MovedMeans(f: Flash, list: seq<Octets>, index: nat, j: nat)
    requires MovedTo(f, list, index, j)
    ensures index <= j < |list| && Sound(f) && Count(f) == |list| - 1
    ensures PartlyRemoved(list, index, ListOf(f)) && ListOf(f) == Shifted(list, index, j - index)
    ensures j + 1 < |list| ==> j + 1 in f.entries
  {
    hide RealEntry, Shifted;
  }

  lemma MovedNone(f: Flash, list: seq<Octets>, index: nat)
    requires index < |list| && Sound(f) && Count(f) == |list| - 1 && ListOf(f) == list[..|list| - 1]
    requires var last := |list| - 1; last in f.entries && f.entries[last] == list[last] && RealEntry(list[last])
    ensures MovedTo(f, list, index, index)
  {
    hide RealEntry;
    assert list[..|list| - 1] == Shifted(list, index, 0);
    forall m: nat | index < m < |list| - 1
      ensures m in f.entries && f.entries[m] == list[m]
    {
      assert ListOf(f)[m] == list[m];
    }
  }

  class Store {
    var flash: Flash
    /** The count cached in RAM. */
    var bmCount: nat
    /** Every state the flash has been in, oldest first: where the power may have gone. */
    ghost var states: seq<Flash>

    ghost predicate Valid()
      reads this
    {
      Sound(flash) && bmCount == Count(flash)
    }

    /** bookmarks_init, after any earlier history of the flash. */
    constructor (f: Flash)
      requires Sound(f)
      ensures Valid() && flash == f && states == []
    {
      flash, states := f, [];
      bmCount := Count(f);
    }

    /** nvs_set_str of one entry; ok is whether the write succeeded. */
    method WriteEntry(i: nat, raw: Octets, ok: bool)
      modifies `flash, `states
      ensures flash == if ok then old(flash).(entries := old(flash).entries[i := raw]) else old(flash)
      ensures states == old(states) + [flash]
    {
      if ok {
        flash := flash.(entries := flash.entries[i := raw]);
      }
      states := states + [flash];
    }

    /** nvs_set_u8 of the count. */
    method WriteCount(n: byte, ok: bool)
      modifies `flash, `states
      ensures flash == if ok then old(flash).(count := Some(n)) else old(flash)
      ensures states == old(states) + [flash]
    {
      if ok {
        flash := flash.(count := Some(n));
      }
      states := states + [flash];
    }

    /** nvs_erase_key of one entry. */
    method EraseEntry(i: nat, ok: bool)
      modifies `flash, `states
      ensures flash == if ok then old(flash).(entries := old(flash).entries - {i}) else old(flash)
      ensures states == old(states) + [flash]
    {
      if ok {
        flash := flash.(entries := flash.entries - {i});
      }
      states := states + [flash];
    }

    /** bookmarks_get */
    method Get(index: int) returns (r: Option<(Octets, Octets)>)
      requires Valid()
      ensures 0 <= index < |ListOf(flash)| ==> r == Some(Read(ListOf(flash)[index]))
      ensures !(0 <= index < |ListOf(flash)|) ==> r.None?
    {
      if index < 0 || index >= bmCount {
        return None;
      }
      ghost var entry := ListOf(flash)[index];
      ghost var t, u :| IsRecord(entry, t, u);
      ReadRecord(entry, t, u);
      var raw := flash.entries[index];
      if |raw| >= BM_RAW_MAX {
        return None;
      }
      var sep := Memchr(raw, NEWLINE, 0, |raw|);
      var title, url := [], Cut(raw, BM_URL_MAX - 1);
      if sep < |raw| {
        title, url := Cut(raw[..sep], BM_TITLE_MAX - 1), Cut(raw[sep + 1..], BM_URL_MAX - 1);
      }
      return if url == [] then None else Some((title, url));
    }

    /** bookmarks_set; a negative index appends. entryOk and countOk say which key writes succeed. */
    method Set(index: int, title: Octets, url: Octets, entryOk: bool, countOk: bool) returns (ok: bool)
      requires Valid()
      modifies this
      ensures Valid()
      ensures var list := ListOf(old(flash));
              var at := if index < 0 then |list| else index;
              var accepted := Normalized(url).Some? && (if index < 0 then |list| < BM_MAX else index < |list|);
              var raw := if accepted then Record(Sanitized(title, BM_TITLE_MAX), Normalized(url).value) else [];
              var wanted := if !accepted then list else if index < 0 then list + [raw] else list[index := raw];
              && (ok <==> accepted && entryOk && (index < 0 ==> countOk))
              && ListOf(flash) == (if ok then wanted else list)
              // cut after any single write, the list is the old one or the wanted one
              && old(states) <= states
              && (forall f :: f in states[|old(states)|..] ==> Sound(f) && (ListOf(f) == list || ListOf(f) == wanted))
    {
      hide RealEntry, Record, Normalized, Sanitized;
      ghost var list := ListOf(flash);
      var cleanUrl := NormalizeUrl(url);
      if cleanUrl.None? {
        return false;
      }
      var buf := new octet[BM_TITLE_MAX];
      var w := Sanitize(title, buf);
      var append := index < 0;
      var at := if append then bmCount else index;
      if append && bmCount >= BM_MAX {
        return false;
      }
      if !append && index >= bmCount {
        return false;
      }
      var raw := Record(buf[..w], cleanUrl.value);
      RecordIsReal(title, url);
      EntryWritten(flash, at, raw);
      WriteEntry(at, raw, entryOk);
      if !entryOk {
        assert states[|old(states)|..] == [flash];
        return false;
      }
      ghost var f1 := flash;
      if append {
        CountRaised(flash, raw);
        WriteCount(at + 1, countOk);
        assert states[|old(states)|..] == [f1, flash];
        if !countOk {
          return false;
        }
        bmCount := at + 1;
      } else {
        assert states[|old(states)|..] == [f1];
      }
      return true;
    }

    /** bookmarks_remove; countOk, shiftOk(j) and eraseOk say which key writes succeed. */
    method Remove(index: int, countOk: bool, shiftOk: nat -> bool, eraseOk: bool) returns (ok: bool)
      requires Valid()
      modifies this
      ensures Valid()
      ensures var list := ListOf(old(flash));
              && (ok <==> 0 <= index < |list| && countOk && forall j: nat :: index <= j < |list| - 1 ==> shiftOk(j))
              && (ok ==> ListOf(flash) == list[..index] + list[index + 1..])
              && (!(0 <= index < |list|) || !countOk ==> ListOf(flash) == list)
              && old(states) <= states
              // cut after any single write, the list is the old one, or one shorter with k entries moved down
              && (forall f :: f in states[|old(states)|..] ==>
                    Sound(f) && 0 <= index < |list| && PartlyRemoved(list, index, ListOf(f)))
    {
      hide RealEntry;
      if index < 0 || index >= bmCount {
        return false;
      }
      ghost var list := ListOf(flash);
      var last := bmCount - 1;
      CountLowered(flash);
      assert list[..last] == Shifted(list, index, 0);
      WriteCount(last, countOk);
      assert states[|old(states)|..] == [flash];
      if !countOk {
        return false;
      }
      bmCount := last;
      MovedNone(flash, list, index);
      ok := ShiftDown(index, last, shiftOk, list);
      if !ok {
        return false;
      }
      EntryErased(flash, last);
      EraseEntry(last, eraseOk);
      RemovedCompletely(list, index);
      return true;
    }

    /** One step of the shift: the entry above slot j moves down into it. */
    method ShiftOne(index: nat, j: nat, ok: bool, ghost list: seq<Octets>)
      requires index <= j && j + 1 < |list| && MovedTo(flash, list, index, j)
      modifies `flash, `states
      ensures if ok then MovedTo(flash, list, index, j + 1) else flash == old(flash)
      ensures states == old(states) + [flash]
    {
      hide RealEntry, Shifted;
      var raw := flash.entries[j + 1];
      EntryWritten(flash, j, raw);
      ShiftedOnce(list, index, j - index);
      WriteEntry(j, raw, ok);
    }

    /** The shifting loop of bookmarks_remove. */
    method ShiftDown(index: nat, last: nat, shiftOk: nat -> bool, ghost list: seq<Octets>) returns (ok: bool)
      requires index <= last == |list| - 1 && MovedTo(flash, list, index, index)
      modifies `flash, `states
      ensures Sound(flash) && Count(flash) == last
      ensures ok <==> forall j: nat :: index <= j < last ==> shiftOk(j)
      ensures ok ==> ListOf(flash) == Shifted(list, index, last - index)
      ensures old(states) <= states
      ensures forall f :: f in states[|old(states)|..] ==> Sound(f) && PartlyRemoved(list, index, ListOf(f))
    {
      hide RealEntry, Shifted, MovedTo, Sound, PartlyRemoved, Count;
      MovedMeans(flash, list, index, index);
      for j := index to last
        invariant MovedTo(flash, list, index, j)
        invariant forall m: nat :: index <= m < j ==> shiftOk(m)
        invariant old(states) <= states
        invariant forall f :: f in states[|old(states)|..] ==> Sound(f) && PartlyRemoved(list, index, ListOf(f))
      {
        MovedMeans(flash, list, index, j);
        // an unreadable entry would be skipped, but every entry still to move is there
        if j + 1 !in flash.entries {
          assert false;
        }
        ghost var before := states;
        ShiftOne(index, j, shiftOk(j), list);
        assert states[|old(states)|..] == before[|old(states)|..] + [flash];
        if !shiftOk(j) {
          return false;
        }
        MovedMeans(flash, list, index, j + 1);
      }
      MovedMeans(flash, list, index, last);
      return true;
    }
  }

  lemma RecordIsReal(title: Octets, url: Octets)
    requires Normalized(url).Some?
    ensures RealEntry(Record(Sanitized(title, BM_TITLE_MAX), Normalized(url).value))
  {
    SetMakesRecord(title, url);
  }
}
