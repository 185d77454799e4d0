/** ListObjectsV2: the common-prefix grouping of keys, the page a listing request
    answers, and the seek-based SQL pager that must answer the same page. */
module Listing {
  import opened Bytes
  import opened Metadata
  import opened SqlTable

  /** One line of a listing: an object, or a common prefix when object is None. */
  datatype Entry = Entry(value: Str, object: Option<ObjectVersion>)

  datatype Page = Page(entries: seq<Entry>, truncated: bool, next: Str)

  // ---- From keys to entry values

  predicate Grouped(key: Str, p: Str, d: Str)
    requires p <= key
  {
    d != [] && Contains(key[|p|..], d)
  }

  /** The value under which a key is listed: itself, or prefix + tail up to and
      including the first delimiter. */
  function EntryValue(key: Str, p: Str, d: Str): Str
    requires p <= key
  {
    if Grouped(key, p, d) then
      var tail := key[|p|..];
      p + tail[..Index(tail, d) + |d|]
    else key
  }

  lemma EntryValueIsPrefix(key: Str, p: Str, d: Str)
    requires p <= key
    ensures p <= EntryValue(key, p, d) <= key
    ensures key != [] ==> EntryValue(key, p, d) != []
  {
    if Grouped(key, p, d) {
      var tail := key[|p|..];
      assert key == p + tail;
    }
  }

  /** A string that starts a key is that key's common prefix exactly when, read as a
      key itself, it is grouped under itself. */
  lemma CommonPrefixOf(key: Str, cp: Str, p: Str, d: Str)
    requires p <= cp <= key && Grouped(cp, p, d) && EntryValue(cp, p, d) == cp
    ensures Grouped(key, p, d) && EntryValue(key, p, d) == cp
  {
    var tail, head := key[|p|..], cp[|p|..];
    assert head <= tail;
    var i := Index(head, d);
    assert cp == p + head && |head| == i + |d|;
    OccursInPrefix(tail, head, d, i);
    var j := Index(tail, d);
    OccursInPrefix(tail, head, d, j);
    assert tail[..i + |d|] == head;
  }

  /** Grouping twice changes nothing: a common prefix is its own entry. */
  lemma EntryValueIdempotent(key: Str, p: Str, d: Str)
    requires p <= key
    ensures p <= EntryValue(key, p, d)
    ensures EntryValue(EntryValue(key, p, d), p, d) == EntryValue(key, p, d)
    ensures Grouped(EntryValue(key, p, d), p, d) == Grouped(key, p, d)
  {
    EntryValueIsPrefix(key, p, d);
    if Grouped(key, p, d) {
      var tail := key[|p|..];
      var i := Index(tail, d);
      var cp := p + tail[..i + |d|];
      var head := cp[|p|..];
      assert head == tail[..i + |d|] && head <= tail;
      OccursInPrefix(tail, head, d, i);
      var j := Index(head, d);
      OccursInPrefix(tail, head, d, j);
      assert head[..j + |d|] == head;
    }
  }

  /** Two keys under one common prefix: whenever the shorter entry of one starts the other
      key, the entries coincide or extend each other upwards. */
  lemma EntryOfExtension(k1: Str, k2: Str, p: Str, d: Str)
    requires p <= k1 && p <= k2
    requires EntryValue(k1, p, d) <= k2
    ensures EntryValue(k1, p, d) <= EntryValue(k2, p, d)
    ensures Grouped(k1, p, d) ==> EntryValue(k1, p, d) == EntryValue(k2, p, d)
  {
    EntryValueIdempotent(k1, p, d);
    EntryValueIdempotent(k2, p, d);
    EntryValueIsPrefix(k1, p, d);
    EntryValueIsPrefix(k2, p, d);
    var e1, e2 := EntryValue(k1, p, d), EntryValue(k2, p, d);
    if Grouped(k1, p, d) {
      CommonPrefixOf(k2, e1, p, d);
    } else if |e2| < |e1| {
      assert e2 == k2[..|e2|] == e1[..|e2|];
      CommonPrefixOf(k1, e2, p, d);
    } else {
      assert e1 == k2[..|e1|] == e2[..|e1|];
    }
  }

  /** The map from key to entry value is monotone, for a delimiter of any length. */
  lemma EntryValueMonotone(k1: Str, k2: Str, p: Str, d: Str)
    requires p <= k1 && p <= k2 && Less(k1, k2)
    ensures AtMost(EntryValue(k1, p, d), EntryValue(k2, p, d))
  {
    EntryValueIsPrefix(k1, p, d);
    EntryValueIsPrefix(k2, p, d);
    var e1, e2 := EntryValue(k1, p, d), EntryValue(k2, p, d);
    if e1 <= k2 {
      EntryOfExtension(k1, k2, p, d);
      PrefixAtMost(e1, e2);
    } else {
      var m := Lcp(k1, k2);
      assert forall i | 0 <= i < m :: k1[i] == k1[..m][i] && k2[i] == k2[..m][i];
      assert m < |e1|;
      if m < |e2| {
        assert e1[..m] == k1[..m] == k2[..m] == e2[..m];
        LessAt(e1, e2, m);
      } else {
        assert e2 == k2[..m][..|e2|] == k1[..m][..|e2|];
        EntryOfExtension(k2, k1, p, d);
      }
    }
  }

  /** No listed object key is also a common prefix. */
  lemma ObjectIsNoCommonPrefix(k1: Str, k2: Str, p: Str, d: Str)
    requires p <= k1 && p <= k2 && !Grouped(k1, p, d) && Grouped(k2, p, d)
    ensures EntryValue(k1, p, d) != EntryValue(k2, p, d)
  {
    EntryValueIdempotent(k2, p, d);
  }

  // ---- The whole listing

  function EntryFor(v: ObjectVersion, p: Str, d: Str): Entry
    requires p <= v.key
  {
    Entry(EntryValue(v.key, p, d), if Grouped(v.key, p, d) then None else Some(v))
  }

  predicate StrictEntries(es: seq<Entry>) {
    forall i, j :: 0 <= i < j < |es| ==> Less(es[i].value, es[j].value)
  }

  /** The listing of a bucket in key order: keys outside the prefix are dropped and runs
      of keys under one common prefix collapse. */
  function Entries(objs: seq<ObjectVersion>, p: Str, d: Str): seq<Entry> {
    if objs == [] then []
    else
      var init := Entries(objs[..|objs| - 1], p, d);
      var v := objs[|objs| - 1];
      if !(p <= v.key) then init
      else
        var e := EntryFor(v, p, d);
        if init != [] && init[|init| - 1].value == e.value then init else init + [e]
  }

  ghost predicate Lists(objs: seq<ObjectVersion>, p: Str, d: Str, e: Entry) {
    exists v :: v in objs && p <= v.key && EntryFor(v, p, d) == e
  }

  /** The listing is strictly increasing and holds exactly one entry for every key. */
  lemma {:induction false} EntriesMeaning(objs: seq<ObjectVersion>, p: Str, d: Str)
    requires StrictByKey(objs)
    ensures StrictEntries(Entries(objs, p, d))
    ensures forall e :: e in Entries(objs, p, d) <==> Lists(objs, p, d, e)
  {
    hide Less, EntryFor;
    if objs != [] {
      var n := |objs| - 1;
      var init, v := Entries(objs[..n], p, d), objs[n];
      EntriesMeaning(objs[..n], p, d);
      assert objs == objs[..n] + [v];
      assert forall u :: u in objs[..n] ==> Less(u.key, v.key);
      forall e | Lists(objs[..n], p, d, e)
        ensures Lists(objs, p, d, e)
      {
        var u :| u in objs[..n] && p <= u.key && EntryFor(u, p, d) == e;
        assert u in objs;
      }
      if p <= v.key {
        EntriesStep(objs[..n], v, p, d);
        assert Lists(objs, p, d, EntryFor(v, p, d)) by { assert v in objs; }
      }
      forall e | Lists(objs, p, d, e)
        ensures Lists(objs[..n], p, d, e) || (p <= v.key && e == EntryFor(v, p, d))
      {
        var u :| u in objs && p <= u.key && EntryFor(u, p, d) == e;
        assert u == v || u in objs[..n];
      }
    }
  }

  lemma EntryOfSmallerKey(u: ObjectVersion, v: ObjectVersion, p: Str, d: Str)
    requires p <= u.key && p <= v.key && Less(u.key, v.key)
    ensures Less(EntryFor(u, p, d).value, EntryFor(v, p, d).value) || EntryFor(u, p, d) == EntryFor(v, p, d)
  {
    hide Less;
    EntryValueMonotone(u.key, v.key, p, d);
    LessTotal(u.key, v.key);
    if EntryValue(u.key, p, d) == EntryValue(v.key, p, d) {
      if Grouped(u.key, p, d) && !Grouped(v.key, p, d) { ObjectIsNoCommonPrefix(v.key, u.key, p, d); }
      if !Grouped(u.key, p, d) && Grouped(v.key, p, d) { ObjectIsNoCommonPrefix(u.key, v.key, p, d); }
    }
  }

  /** Appending a greater key: its entry is the last one already, or is above all of them. */
  lemma EntriesStep(objs: seq<ObjectVersion>, v: ObjectVersion, p: Str, d: Str)
    requires p <= v.key && forall u :: u in objs ==> Less(u.key, v.key)
    requires StrictEntries(Entries(objs, p, d))
    requires forall e :: e in Entries(objs, p, d) <==> Lists(objs, p, d, e)
    ensures var es, e := Entries(objs, p, d), EntryFor(v, p, d);
            if es != [] && es[|es| - 1].value == e.value then es[|es| - 1] == e
            else StrictEntries(es + [e]) && forall x :: x in es ==> x.value != e.value
  {
    hide Less, Entries, EntryFor;
    var es, e := Entries(objs, p, d), EntryFor(v, p, d);
    forall x | x in es
      ensures Less(x.value, e.value) || x == e
    {
      var u :| u in objs && p <= u.key && EntryFor(u, p, d) == x;
      EntryOfSmallerKey(u, v, p, d);
    }
    LessTotal(e.value, e.value);
    assert es != [] ==> es[|es| - 1] in es;
    if !(es != [] && es[|es| - 1].value == e.value) {
      forall i | 0 <= i < |es|
        ensures Less(es[i].value, e.value)
      {
        var last := es[|es| - 1];
        assert es[i] in es && last in es;
        LessTotal(last.value, e.value);
        if i < |es| - 1 { LessTransitive(es[i].value, last.value, e.value); }
      }
      forall x | x in es
        ensures x.value != e.value
      {
        LessTotal(x.value, e.value);
        var i :| 0 <= i < |es| && es[i] == x;
      }
    }
  }
}
