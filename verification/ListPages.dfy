/** Pages of a listing: the page cut from the whole in-memory listing, the page the SQL
    pager seeks to, and when the two are the same page. */
module ListPages {
  import opened Bytes
  import opened Metadata
  import opened SqlTable
  import opened Listing
  import opened Sorting

  // ---- The page cut from a whole listing

  function FirstAbove(es: seq<Entry>, after: Str): (r: nat)
    ensures r <= |es|
    ensures forall i :: 0 <= i < r ==> !Less(after, es[i].value)
    ensures r < |es| ==> Less(after, es[r].value)
  {
    if es == [] || Less(after, es[0].value) then 0 else 1 + FirstAbove(es[1..], after)
  }

  function Rest(es: seq<Entry>, after: Str): seq<Entry> {
    if after == [] then es else es[FirstAbove(es, after)..]
  }

  function Cut(rest: seq<Entry>, max: nat): Page {
    if max == 0 then Page([], false, [])
    else if |rest| <= max then Page(rest, false, [])
    else Page(rest[..max], true, rest[max - 1].value)
  }

  /** The page of at most max entries that follows position `after`. */
  function PageOf(es: seq<Entry>, after: Str, max: nat): Page {
    Cut(Rest(es, after), max)
  }

  predicate NonEmptyKeys(objs: seq<ObjectVersion>) {
    forall v :: v in objs ==> v.key != []
  }

  lemma RestMember(es: seq<Entry>, after: Str, e: Entry)
    requires StrictEntries(es) && forall x :: x in es ==> x.value != []
    ensures StrictEntries(Rest(es, after))
    ensures e in Rest(es, after) <==> e in es && Less(after, e.value)
  {
    hide Less;
    if after == [] {
      if e in es { PrefixAtMost([], e.value); }
    } else {
      var r := FirstAbove(es, after);
      assert es == es[..r] + es[r..];
      if e in es[r..] {
        var i :| r <= i < |es| && es[i] == e;
        if r < i { LessTransitive(after, es[r].value, e.value); }
      }
    }
  }

  // ---- The in-memory path

  predicate KeyAtMost(a: ObjectVersion, b: ObjectVersion) { AtMost(a.key, b.key) }

  predicate ValueAtMost(a: Entry, b: Entry) { AtMost(a.value, b.value) }

  lemma SortOrders()
    ensures TotalPreorder(KeyAtMost) && TotalPreorder(ValueAtMost)
  {
    hide Less, AtMost;
    forall a: Str, b: Str, c: Str { AtMostOrders(a, b, c); }
  }

  /** What one more key does to a listing: nothing when its common prefix is already
      listed, otherwise one new last entry. */
  lemma EntriesAppend(objs: seq<ObjectVersion>, v: ObjectVersion, p: Str, d: Str)
    requires StrictByKey(objs) && p <= v.key
    requires forall u :: u in objs ==> Less(u.key, v.key)
    ensures var es, e := Entries(objs, p, d), EntryFor(v, p, d);
            Entries(objs + [v], p, d) == if e in es then es else es + [e]
    ensures !Grouped(v.key, p, d) ==> EntryFor(v, p, d) !in Entries(objs, p, d)
  {
    hide Less;
    EntriesMeaning(objs, p, d);
    EntriesStep(objs, v, p, d);
    assert (objs + [v])[..|objs|] == objs;
    if !Grouped(v.key, p, d) { NewObjectIsNew(objs, v, p, d); }
  }

  /** listV2EntriesFromObjects: the first-seen deduplication by a set of common prefixes
      builds the listing, and leaves its final sort nothing to do. */
  method EntriesFromObjects(objs: seq<ObjectVersion>, p: Str, d: Str) returns (entries: seq<Entry>)
    requires StrictByKey(objs)
    ensures entries == Entries(objs, p, d)
  {
    entries := [];
    var commonPrefixes: set<Str> := {};
    for i := 0 to |objs|
      invariant entries == Entries(objs[..i], p, d)
      invariant forall cp :: cp in commonPrefixes <==> Entry(cp, None) in entries
    {
      var obj := objs[i];
      assert objs[..i + 1] == objs[..i] + [obj];
      if p <= obj.key {
        EntriesAppend(objs[..i], obj, p, d);
        var e := EntryFor(obj, p, d);
        if d != [] && Index(obj.key[|p|..], d) >= 0 {
          if e.value !in commonPrefixes {
            commonPrefixes := commonPrefixes + {e.value};
            entries := entries + [e];
          }
        } else {
          entries := entries + [e];
        }
      } else {
        assert objs[..i + 1][..i] == objs[..i];
      }
    }
    assert objs[..|objs|] == objs;
    EntriesMeaning(objs, p, d);
    SortOrders();
    var sorted := Sort(ValueAtMost, entries);
    SortingStrictIsIdle(entries, sorted);
    entries := sorted;
  }

  /** A key listed as an object is listed for the first time. */
  lemma NewObjectIsNew(objs: seq<ObjectVersion>, v: ObjectVersion, p: Str, d: Str)
    requires StrictByKey(objs) && p <= v.key && !Grouped(v.key, p, d)
    requires forall u :: u in objs ==> Less(u.key, v.key)
    ensures forall e :: e in Entries(objs, p, d) ==> e.value != v.key
  {
    EntriesMeaning(objs, p, d);
    forall e | e in Entries(objs, p, d)
      ensures e.value != v.key
    {
      var u :| u in objs && p <= u.key && EntryFor(u, p, d) == e;
      EntryValueIsPrefix(u.key, p, d);
      PrefixAtMost(e.value, u.key);
      LessTotal(u.key, v.key);
    }
  }

  lemma SortingStrictIsIdle(es: seq<Entry>, sorted: seq<Entry>)
    requires StrictEntries(es) && Sorted(ValueAtMost, sorted) && multiset(sorted) == multiset(es)
    ensures sorted == es
  {
    assert Sorted(ValueAtMost, es);
    SortOrders();
    SortedDistinct(es, sorted);
    forall e
      ensures e in es <==> e in sorted
    {
      assert e in es <==> e in multiset(es);
    }
    StrictListsEqual((e: Entry) => e.value, sorted, es);
  }

  lemma SortedDistinct(es: seq<Entry>, sorted: seq<Entry>)
    requires StrictEntries(es) && Sorted(ValueAtMost, sorted) && multiset(sorted) == multiset(es)
    ensures StrictEntries(sorted)
  {
    forall i, j | 0 <= i < j < |sorted|
      ensures Less(sorted[i].value, sorted[j].value)
    {
      assert ValueAtMost(sorted[i], sorted[j]);
      if sorted[i].value == sorted[j].value {
        var x, y := sorted[i], sorted[j];
        assert x in multiset(sorted) && y in multiset(sorted);
        assert x in es && y in es;
        OneEntryPerValue(es, x, y);
        TwiceInMultiset(sorted, i, j);
        AtMostOnce(es, x);
      }
    }
  }

  lemma OneEntryPerValue(es: seq<Entry>, x: Entry, y: Entry)
    requires StrictEntries(es) && x in es && y in es && x.value == y.value
    ensures x == y
  {
    LessTotal(x.value, y.value);
  }

  lemma TwiceInMultiset<T>(s: seq<T>, i: nat, j: nat)
    requires i < j < |s| && s[i] == s[j]
    ensures multiset(s)[s[i]] >= 2
  {
    assert s == s[..i] + [s[i]] + s[i + 1..j] + [s[j]] + s[j + 1..];
  }

  lemma {:induction false} AtMostOnce(es: seq<Entry>, x: Entry)
    requires StrictEntries(es)
    ensures multiset(es)[x] <= 1
  {
    if es != [] {
      var n := |es| - 1;
      AtMostOnce(es[..n], x);
      assert es == es[..n] + [es[n]];
      if x == es[n] {
        LessTotal(x.value, x.value);
        assert x !in es[..n];
        assert x !in multiset(es[..n]);
      }
    }
  }

  type MemObjects = map<ObjectKey, seq<ObjectVersion>>

  ghost predicate WellKeyed(objects: MemObjects) {
    forall k, v :: k in objects && v in objects[k] ==> v.bucket == k.bucket && v.key == k.key
  }

  ghost predicate ShownInMemory(objects: MemObjects, bucket: Str, v: ObjectVersion) {
    exists k :: k in objects && k.bucket == bucket && objects[k] != [] &&
                v == objects[k][|objects[k]| - 1] && !v.deleteMarker
  }

  /** memoryBackedStore.ListObjects: the visible newest versions, in map iteration order. */
  method ListObjects(objects: MemObjects, bucket: Str) returns (result: seq<ObjectVersion>)
    requires WellKeyed(objects)
    ensures forall v :: v in result <==> ShownInMemory(objects, bucket, v)
    ensures forall i, j :: 0 <= i < j < |result| ==> result[i].key != result[j].key
  {
    hide ListedSoFar, WellKeyed;
    result := [];
    var todo := objects.Keys;
    NothingListed(objects, bucket);
    while todo != {}
      invariant todo <= objects.Keys && ListedSoFar(objects, todo, bucket, result)
      decreases |todo|
    {
      var key :| key in todo;
      var versions := objects[key];
      ListedNext(objects, todo, key, bucket, result);
      todo := todo - {key};
      if key.bucket == bucket && versions != [] && !versions[|versions| - 1].deleteMarker {
        result := result + [versions[|versions| - 1]];
      }
    }
    AllListed(objects, bucket, result);
  }

  /** The result lists what the keys done show, each key once. */
  ghost predicate ListedSoFar(objects: MemObjects, todo: set<ObjectKey>, bucket: Str, result: seq<ObjectVersion>) {
    && (forall v :: v in result <==> ShownInMemory(objects - todo, bucket, v))
    && (forall v :: v in result ==> v.bucket == bucket && ObjectKey(bucket, v.key) !in todo)
    && (forall i, j :: 0 <= i < j < |result| ==> result[i].key != result[j].key)
  }

  lemma NothingListed(objects: MemObjects, bucket: Str)
    ensures ListedSoFar(objects, objects.Keys, bucket, [])
  {
    assert objects - objects.Keys == map[];
  }

  lemma AllListed(objects: MemObjects, bucket: Str, result: seq<ObjectVersion>)
    requires ListedSoFar(objects, {}, bucket, result)
    ensures forall v :: v in result <==> ShownInMemory(objects, bucket, v)
    ensures forall i, j :: 0 <= i < j < |result| ==> result[i].key != result[j].key
  {
    assert objects - {} == objects;
  }

  lemma ListedNext(objects: MemObjects, todo: set<ObjectKey>, key: ObjectKey, bucket: Str, result: seq<ObjectVersion>)
    requires WellKeyed(objects) && key in todo && todo <= objects.Keys && ListedSoFar(objects, todo, bucket, result)
    ensures var vs := objects[key];
            ListedSoFar(objects, todo - {key}, bucket,
                        if key.bucket == bucket && vs != [] && !vs[|vs| - 1].deleteMarker
                        then result + [vs[|vs| - 1]] else result)
  {
    hide ShownInMemory;
    var vs, seen, seen' := objects[key], objects - todo, objects - (todo - {key});
    assert seen == seen' - {key};
    ShownStep(seen, seen', key, bucket);
    if key.bucket == bucket && vs != [] && !vs[|vs| - 1].deleteMarker {
      var v := vs[|vs| - 1];
      assert v in vs;
      assert ObjectKey(v.bucket, v.key) == key;
      assert forall u :: u in result ==> u.key != v.key;
      assert forall u :: u in result + [v] <==> u in result || u == v;
    }
  }

  lemma ShownStep(seen: MemObjects, seen': MemObjects, key: ObjectKey, bucket: Str)
    requires key !in seen && key in seen' && seen == seen' - {key}
    ensures forall v :: ShownInMemory(seen', bucket, v) <==>
      ShownInMemory(seen, bucket, v) ||
      (key.bucket == bucket && seen'[key] != [] && v == seen'[key][|seen'[key]| - 1] && !v.deleteMarker)
  {
    forall v | ShownInMemory(seen, bucket, v)
      ensures ShownInMemory(seen', bucket, v)
    {
      var k :| k in seen && k.bucket == bucket && seen[k] != [] && v == seen[k][|seen[k]| - 1] && !v.deleteMarker;
      assert k in seen' && seen'[k] == seen[k];
    }
  }

  /** The objects a bucket shows, in key order; there is one such list. */
  ghost predicate IsListing(objects: MemObjects, bucket: Str, objs: seq<ObjectVersion>) {
    StrictByKey(objs) && forall v :: v in objs <==> ShownInMemory(objects, bucket, v)
  }

  /** The page handleListObjectsV2 cuts when the store has no pager of its own. */
  method MemoryPage(objects: MemObjects, bucket: Str, p: Str, d: Str, after: Str, maxKeys: nat) returns (page: Page)
    requires WellKeyed(objects)
    ensures exists objs :: IsListing(objects, bucket, objs) && page == PageOf(Entries(objs, p, d), after, maxKeys)
  {
    hide ShownInMemory, PageOf, Entries;
    var listed := ListObjects(objects, bucket);
    SortOrders();
    var sorted := Sort(KeyAtMost, listed);
    SortedByDistinctKeys(listed, sorted);
    forall v
      ensures v in sorted <==> v in listed
    {
      assert v in multiset(sorted) <==> v in multiset(listed);
    }
    assert IsListing(objects, bucket, sorted);
    var entries := EntriesFromObjects(sorted, p, d);
    page := CutPage(entries, after, maxKeys);
  }

  lemma SortedByDistinctKeys(listed: seq<ObjectVersion>, sorted: seq<ObjectVersion>)
    requires Sorted(KeyAtMost, sorted) && multiset(sorted) == multiset(listed)
    requires forall i, j :: 0 <= i < j < |listed| ==> listed[i].key != listed[j].key
    ensures StrictByKey(sorted)
  {
    forall i, j | 0 <= i < j < |sorted|
      ensures Less(sorted[i].key, sorted[j].key)
    {
      assert KeyAtMost(sorted[i], sorted[j]);
      if sorted[i].key == sorted[j].key {
        var x, y := sorted[i], sorted[j];
        assert x in multiset(listed) && y in multiset(listed);
        assert x == y;
        TwiceInMultiset(sorted, i, j);
        DistinctOnce(listed, x);
      }
    }
  }

  lemma {:induction false} DistinctOnce(s: seq<ObjectVersion>, x: ObjectVersion)
    requires forall i, j :: 0 <= i < j < |s| ==> s[i].key != s[j].key
    ensures multiset(s)[x] <= 1
  {
    if s != [] {
      var n := |s| - 1;
      DistinctOnce(s[..n], x);
      assert s == s[..n] + [s[n]];
      assert x == s[n] ==> x !in s[..n];
      assert x == s[n] ==> x !in multiset(s[..n]);
    }
  }

  method FindStart(entries: seq<Entry>, after: Str) returns (startIdx: nat)
    ensures startIdx <= |entries| && Rest(entries, after) == entries[startIdx..]
  {
    startIdx := 0;
    if after != [] {
      startIdx := |entries|;
      for i := 0 to |entries|
        invariant startIdx == |entries|
        invariant forall k :: 0 <= k < i ==> !Less(after, entries[k].value)
      {
        if Less(after, entries[i].value) {
          startIdx := i;
          break;
        }
      }
    }
  }

  /** The page so far: entries start to i, and whether it is full with more to come. */
  predicate PageSoFar(entries: seq<Entry>, start: nat, i: nat, maxKeys: nat, page: Page) {
    && start <= i <= |entries| && page.entries == entries[start..i] && i - start <= maxKeys
    && page.truncated == (i - start == maxKeys > 0 && i < |entries|)
    && page.next == if page.truncated then entries[i - 1].value else []
  }

  lemma PageStep(entries: seq<Entry>, start: nat, i: nat, maxKeys: nat, page: Page)
    requires PageSoFar(entries, start, i, maxKeys, page) && i < |entries| && i - start < maxKeys
    ensures var full := i + 1 - start == maxKeys && i + 1 < |entries|;
            PageSoFar(entries, start, i + 1, maxKeys,
                      Page(page.entries + [entries[i]], full, if full then entries[i].value else page.next))
  {
    assert entries[start..i + 1] == entries[start..i] + [entries[i]];
  }

  lemma PageDone(entries: seq<Entry>, start: nat, i: nat, maxKeys: nat, page: Page)
    requires PageSoFar(entries, start, i, maxKeys, page) && (i == |entries| || i - start == maxKeys)
    ensures page == Cut(entries[start..], maxKeys)
  {
    assert entries[start..][..i - start] == entries[start..i];
    assert i == |entries| ==> entries[start..] == entries[start..i];
  }

  /** The page loop of the handler over a ready entry list. */
  method CutPage(entries: seq<Entry>, after: Str, maxKeys: nat) returns (page: Page)
    ensures page == PageOf(entries, after, maxKeys)
  {
    hide PageSoFar, Cut, Rest;
    var start := FindStart(entries, after);
    page := Page([], false, []);
    assert PageSoFar(entries, start, start, maxKeys, page) by { PageStart(entries, start, maxKeys); }
    var i := start;
    while i < |entries| && i - start < maxKeys
      invariant start <= i <= |entries| && i - start <= maxKeys && PageSoFar(entries, start, i, maxKeys, page)
    {
      PageStep(entries, start, i, maxKeys, page);
      var full := i + 1 - start == maxKeys && i + 1 < |entries|;
      page := Page(page.entries + [entries[i]], full, if full then entries[i].value else page.next);
      i := i + 1;
    }
    PageDone(entries, start, i, maxKeys, page);
  }

  lemma PageStart(entries: seq<Entry>, start: nat, maxKeys: nat)
    requires start <= |entries|
    ensures PageSoFar(entries, start, start, maxKeys, Page([], false, []))
  {
    assert entries[start..start] == [];
  }

  // ---- The SQL pager

  /** stringPrefixUpperBound: the bound turns "starts with" into a key range. */
  method StringPrefixUpperBound(prefix: Str) returns (upper: Option<Str>)
    ensures forall key: Str :: prefix <= key <==> !Less(key, prefix) && (upper.Some? ==> Less(key, upper.value))
    ensures upper.None? <==> forall i :: 0 <= i < |prefix| ==> prefix[i] == 0xff
  {
    var b := new byte[|prefix|](i requires 0 <= i < |prefix| => prefix[i]);
    var i := |prefix| - 1;
    while i >= 0
      invariant -1 <= i < |prefix|
      invariant b[..] == prefix
      invariant forall k :: i < k < |prefix| ==> prefix[k] == 0xff
    {
      if b[i] != 0xff {
        b[i] := b[i] + 1;
        assert b[..i] == prefix[..i];
        upper := Some(b[..i + 1]);
        assert upper.value == prefix[..i] + [prefix[i] + 1];
        forall key: Str { UpperBoundExact(prefix, i, key); }
        return;
      }
      i := i - 1;
    }
    upper := None;
    forall key: Str { NoUpperBoundNeeded(prefix, key); }
  }

  lemma UpperBoundExact(prefix: Str, i: nat, key: Str)
    requires i < |prefix| && prefix[i] != 0xff
    requires forall k :: i < k < |prefix| ==> prefix[k] == 0xff
    ensures prefix <= key <==> !Less(key, prefix) && Less(key, prefix[..i] + [prefix[i] + 1])
  {
    var upper := prefix[..i] + [prefix[i] + 1];
    LessTotal(key, prefix);
    if prefix <= key {
      PrefixAtMost(prefix, key);
      LessAt(key, upper, i);
    } else if Less(prefix, key) {
      var m := Lcp(prefix, key);
      assert m <= i;
      LessTotal(key, upper);
      if m < i {
        assert upper[..m] == prefix[..m];
        LessAt(upper, key, m);
      } else if prefix[i] + 1 < key[i] {
        LessAt(upper, key, i);
      } else {
        assert upper == key[..i + 1];
        PrefixAtMost(upper, key);
      }
    }
  }

  lemma NoUpperBoundNeeded(prefix: Str, key: Str)
    requires forall k :: 0 <= k < |prefix| ==> prefix[k] == 0xff
    ensures prefix <= key <==> !Less(key, prefix)
  {
    LessTotal(key, prefix);
    if prefix <= key { PrefixAtMost(prefix, key); }
  }

  /** The resume rule of the pager: a position that ends in the delimiter is taken for a
      common prefix, and every key under it is passed over. */
  predicate Skips(key: Str, d: Str, after: Str) {
    d != [] && after != [] && HasSuffix(after, d) && after <= key
  }

  function Seek(objs: seq<ObjectVersion>, p: Str, d: Str, after: Str): seq<ObjectVersion> {
    if objs == [] then []
    else
      var init := Seek(objs[..|objs| - 1], p, d, after);
      var v := objs[|objs| - 1];
      if p <= v.key && Less(after, v.key) && !Skips(v.key, d, after) then init + [v] else init
  }

  lemma {:induction false} SeekMember(objs: seq<ObjectVersion>, p: Str, d: Str, after: Str)
    requires StrictByKey(objs)
    ensures StrictByKey(Seek(objs, p, d, after))
    ensures forall v :: v in Seek(objs, p, d, after) <==>
                        v in objs && p <= v.key && Less(after, v.key) && !Skips(v.key, d, after)
  {
    hide Less, Skips;
    if objs != [] {
      var n := |objs| - 1;
      SeekMember(objs[..n], p, d, after);
      assert objs == objs[..n] + [objs[n]];
      assert forall v :: v in objs[..n] ==> Less(v.key, objs[n].key);
    }
  }

  /** The page the pager answers over a bucket's objects. */
  function SeekPage(objs: seq<ObjectVersion>, p: Str, d: Str, after: Str, max: nat): Page {
    Cut(Entries(Seek(objs, p, d, after), p, d), max)
  }

  /** All objects of a bucket, in key order. */
  function Objects(rows: seq<Row>, bucket: Str): seq<ObjectVersion> {
    Query(rows, bucket, [], [], None)
  }

  function Clamp(maxKeys: int): nat {
    if maxKeys < 0 then 0 else if maxKeys > 1000 then 1000 else maxKeys
  }

  lemma {:induction false} EntriesGrow(objs: seq<ObjectVersion>, i: nat, p: Str, d: Str)
    requires i <= |objs|
    ensures Entries(objs[..i], p, d) <= Entries(objs, p, d)
  {
    if i < |objs| {
      EntriesGrow(objs[..|objs| - 1], i, p, d);
      assert objs[..|objs| - 1][..i] == objs[..i];
    } else {
      assert objs[..i] == objs;
    }
  }

  lemma {:induction false} SeekGrows(objs: seq<ObjectVersion>, i: nat, p: Str, d: Str, after: Str)
    requires i <= |objs|
    ensures Seek(objs[..i], p, d, after) <= Seek(objs, p, d, after)
  {
    if i < |objs| {
      SeekGrows(objs[..|objs| - 1], i, p, d, after);
      assert objs[..|objs| - 1][..i] == objs[..i];
    } else {
      assert objs[..i] == objs;
    }
  }

  /** sqliteStore.ListObjectsV2. */
  method SqlListObjectsV2(rows: seq<Row>, bucket: Str, p: Str, d: Str, after: Str, maxKeys: int)
    returns (page: Page)
    requires Ordered(rows)
    ensures page == SeekPage(Objects(rows, bucket), p, d, after, Clamp(maxKeys))
  {
    var max := Clamp(maxKeys);
    if max == 0 {
      return Page([], false, []);
    }
    var upper := StringPrefixUpperBound(p);
    var selected := Query(rows, bucket, p, after, upper);
    RangeQueryIsSeek(rows, bucket, p, d, after, upper);
    page := PageFromRows(selected, p, d, after, max);
  }

  /** The row loop of the pager. */
  method PageFromRows(selected: seq<ObjectVersion>, p: Str, d: Str, after: Str, max: nat) returns (page: Page)
    requires StrictByKey(selected) && max > 0
    requires forall v :: v in selected ==> p <= v.key && Less(after, v.key)
    ensures page == SeekPage(selected, p, d, after, max)
  {
    var entries: seq<Entry> := [];
    var commonPrefixes: set<Str> := {};
    for i := 0 to |selected|
      invariant entries == Entries(Seek(selected[..i], p, d, after), p, d)
      invariant |entries| <= max
      invariant forall cp :: cp in commonPrefixes <==> Entry(cp, None) in entries
    {
      var obj := selected[i];
      assert obj in selected;
      if Skips(obj.key, d, after) {
        assert selected[..i + 1][..i] == selected[..i];
        continue;
      }
      SeekAppend(selected, i, p, d, after);
      var entry := EntryFor(obj, p, d);
      if Grouped(obj.key, p, d) {
        if entry.value in commonPrefixes {
          continue;
        }
        commonPrefixes := commonPrefixes + {entry.value};
      }
      if |entries| == max {
        PageIsFull(selected, i, p, d, after, max);
        return Page(entries, true, entries[|entries| - 1].value);
      }
      entries := entries + [entry];
    }
    assert selected[..|selected|] == selected;
    page := Page(entries, false, []);
  }

  /** One more row that is not passed over, and its effect on the entries so far. */
  lemma SeekAppend(selected: seq<ObjectVersion>, i: nat, p: Str, d: Str, after: Str)
    requires StrictByKey(selected) && i < |selected| && p <= selected[i].key
    requires Less(after, selected[i].key) && !Skips(selected[i].key, d, after)
    ensures var es, e := Entries(Seek(selected[..i], p, d, after), p, d), EntryFor(selected[i], p, d);
            && Entries(Seek(selected[..i + 1], p, d, after), p, d) == (if e in es then es else es + [e])
            && (!Grouped(selected[i].key, p, d) ==> e !in es)
  {
    hide Less, Skips, Entries, EntryFor, Grouped;
    assert selected[..i + 1][..i] == selected[..i];
    SeekMember(selected[..i], p, d, after);
    EntriesAppend(Seek(selected[..i], p, d, after), selected[i], p, d);
  }

  /** A new entry past a full page: the page is the full one, marked as truncated. */
  lemma PageIsFull(selected: seq<ObjectVersion>, i: nat, p: Str, d: Str, after: Str, max: nat)
    requires i < |selected| && max > 0
    requires |Entries(Seek(selected[..i], p, d, after), p, d)| == max
    requires |Entries(Seek(selected[..i + 1], p, d, after), p, d)| > max
    ensures var es := Entries(Seek(selected[..i], p, d, after), p, d);
            SeekPage(selected, p, d, after, max) == Page(es, true, es[max - 1].value)
  {
    EntriesOfSeekGrow(selected, i, p, d, after);
    EntriesOfSeekGrow(selected, i + 1, p, d, after);
  }

  lemma EntriesOfSeekGrow(selected: seq<ObjectVersion>, i: nat, p: Str, d: Str, after: Str)
    requires i <= |selected|
    ensures Entries(Seek(selected[..i], p, d, after), p, d) <= Entries(Seek(selected, p, d, after), p, d)
  {
    var kept, whole := Seek(selected[..i], p, d, after), Seek(selected, p, d, after);
    SeekGrows(selected, i, p, d, after);
    assert whole[..|kept|] == kept;
    EntriesGrow(whole, |kept|, p, d);
  }

  /** Seeking in the range query finds what seeking in the whole bucket finds. */
  lemma RangeQueryIsSeek(rows: seq<Row>, bucket: Str, p: Str, d: Str, after: Str, upper: Option<Str>)
    requires Ordered(rows)
    requires forall key: Str :: p <= key <==> !Less(key, p) && (upper.Some? ==> Less(key, upper.value))
    ensures Seek(Query(rows, bucket, p, after, upper), p, d, after) == Seek(Objects(rows, bucket), p, d, after)
    ensures StrictByKey(Query(rows, bucket, p, after, upper))
    ensures forall v :: v in Query(rows, bucket, p, after, upper) ==> p <= v.key && Less(after, v.key)
  {
    var part, whole := Query(rows, bucket, p, after, upper), Objects(rows, bucket);
    QueryMeaning(rows, bucket, p, after, upper);
    QueryMeaning(rows, bucket, [], [], None);
    SeekMember(part, p, d, after);
    SeekMember(whole, p, d, after);
    forall v
      ensures v in Seek(part, p, d, after) <==> v in Seek(whole, p, d, after)
    {
      if v in Seek(part, p, d, after) {
        PrefixAtMost([], after);
        if after != [] { LessTransitive([], after, v.key); }
        LessTotal(v.key, []);
      }
    }
    StrictListsEqual((v: ObjectVersion) => v.key, Seek(part, p, d, after), Seek(whole, p, d, after));
  }
}
