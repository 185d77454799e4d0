/** When the SQL pager answers the page cut from the whole listing: exactly, for every
    bucket content, prefix, delimiter, page size and position; and what that means for a
    client that follows continuation tokens. */
module PagerAgreement {
  import opened Arith
  import opened Bytes
  import opened Metadata
  import opened SqlTable
  import opened Listing
  import opened ListPages
  import Utf8

  /** The resume rule passes over exactly the keys whose entry does not come after the
      position. */
  ghost predicate ResumeSound(objs: seq<ObjectVersion>, p: Str, d: Str, after: Str) {
    forall v :: v in objs && p <= v.key && Less(after, v.key) ==>
      (Skips(v.key, d, after) <==> AtMost(EntryValue(v.key, p, d), after))
  }

  /** The entry of a key after the position comes after it too, or not at all before. */
  lemma EntryAboveKeyAbove(key: Str, p: Str, d: Str, after: Str)
    requires p <= key && Less(after, EntryValue(key, p, d))
    ensures Less(after, key)
  {
    var e := EntryValue(key, p, d);
    EntryValueIsPrefix(key, p, d);
    PrefixAtMost(e, key);
    if e != key { LessTransitive(after, e, key); }
  }

  lemma EntriesNonEmpty(objs: seq<ObjectVersion>, p: Str, d: Str)
    requires StrictByKey(objs) && NonEmptyKeys(objs)
    ensures forall e :: e in Entries(objs, p, d) ==> e.value != []
  {
    EntriesMeaning(objs, p, d);
    forall e | e in Entries(objs, p, d)
      ensures e.value != []
    {
      var v :| v in objs && p <= v.key && EntryFor(v, p, d) == e;
      EntryValueIsPrefix(v.key, p, d);
    }
  }

  lemma SoundResumeFindsRest(objs: seq<ObjectVersion>, p: Str, d: Str, after: Str)
    requires StrictByKey(objs) && NonEmptyKeys(objs) && ResumeSound(objs, p, d, after)
    ensures Entries(Seek(objs, p, d, after), p, d) == Rest(Entries(objs, p, d), after)
  {
    var sought := Seek(objs, p, d, after);
    var found, rest := Entries(sought, p, d), Rest(Entries(objs, p, d), after);
    SeekMember(objs, p, d, after);
    EntriesMeaning(sought, p, d);
    EntriesMeaning(objs, p, d);
    EntriesNonEmpty(objs, p, d);
    forall e
      ensures e in found <==> e in rest
    {
      RestMember(Entries(objs, p, d), after, e);
      if e in found {
        var v :| v in sought && p <= v.key && EntryFor(v, p, d) == e;
        assert Lists(objs, p, d, e) by { assert v in objs; }
        LessTotal(e.value, after);
      }
      if e in rest {
        var v :| v in objs && p <= v.key && EntryFor(v, p, d) == e;
        EntryAboveKeyAbove(v.key, p, d, after);
        LessTotal(e.value, after);
        assert v in sought;
        assert Lists(sought, p, d, e);
      }
    }
    RestMember(Entries(objs, p, d), after, Entry([], None));
    StrictListsEqual((e: Entry) => e.value, found, rest);
  }

  /** One listed key, and one entry traced back to a key. */
  lemma KeyIsListed(objs: seq<ObjectVersion>, p: Str, d: Str, v: ObjectVersion)
    requires StrictByKey(objs) && v in objs && p <= v.key
    ensures var es := Entries(objs, p, d);
            StrictEntries(es) && EntryFor(v, p, d) in es && AtMost(es[0].value, EntryValue(v.key, p, d))
  {
    EntriesMeaning(objs, p, d);
    assert Lists(objs, p, d, EntryFor(v, p, d));
  }

  lemma EntryHasKey(objs: seq<ObjectVersion>, p: Str, d: Str, e: Entry) returns (v: ObjectVersion)
    requires StrictByKey(objs) && e in Entries(objs, p, d)
    ensures v in objs && p <= v.key && EntryFor(v, p, d) == e
  {
    EntriesMeaning(objs, p, d);
    v :| v in objs && p <= v.key && EntryFor(v, p, d) == e;
  }

  lemma RestStartsAbove(objs: seq<ObjectVersion>, p: Str, d: Str, after: Str)
    requires StrictByKey(objs) && NonEmptyKeys(objs)
    ensures var rest := Rest(Entries(objs, p, d), after);
            StrictEntries(rest) && (rest != [] ==> Less(after, rest[0].value))
  {
    EntriesMeaning(objs, p, d);
    EntriesNonEmpty(objs, p, d);
    var rest := Rest(Entries(objs, p, d), after);
    RestMember(Entries(objs, p, d), after, if rest == [] then Entry([], None) else rest[0]);
  }

  /** Pages that start differently differ. */
  lemma CutsDiffer(a: seq<Entry>, b: seq<Entry>, max: nat)
    requires max > 0 && a != [] && (b != [] ==> a[0] != b[0])
    ensures Cut(a, max) != Cut(b, max)
  {
    assert Cut(a, max).entries[0] == a[0];
  }

  /** A key not passed over although its entry is at or before the position: the pager's
      page starts at or before the position. */
  lemma ReplayedPrefixDiffers(objs: seq<ObjectVersion>, p: Str, d: Str, after: Str, max: nat, v: ObjectVersion)
    requires StrictByKey(objs) && NonEmptyKeys(objs) && max > 0
    requires v in objs && p <= v.key && Less(after, v.key)
    requires !Skips(v.key, d, after) && AtMost(EntryValue(v.key, p, d), after)
    ensures SeekPage(objs, p, d, after, max) != PageOf(Entries(objs, p, d), after, max)
  {
    var sought := Seek(objs, p, d, after);
    assert StrictByKey(sought) && v in sought by { SeekMember(objs, p, d, after); }
    KeyIsListed(sought, p, d, v);
    var found := Entries(sought, p, d);
    AtMostOrders(found[0].value, EntryValue(v.key, p, d), after);
    RestStartsAbove(objs, p, d, after);
    LessTotal(after, found[0].value);
    CutsDiffer(found, Rest(Entries(objs, p, d), after), max);
  }

  /** A key passed over although its entry comes after the position: the whole listing
      continues with an entry the pager never lists on this page. */
  lemma LostEntryDiffers(objs: seq<ObjectVersion>, p: Str, d: Str, after: Str, max: nat, v: ObjectVersion)
    requires StrictByKey(objs) && NonEmptyKeys(objs) && max > 0
    requires v in objs && p <= v.key
    requires Skips(v.key, d, after) && Less(after, EntryValue(v.key, p, d))
    ensures SeekPage(objs, p, d, after, max) != PageOf(Entries(objs, p, d), after, max)
  {
    var rest, found := Rest(Entries(objs, p, d), after), Entries(Seek(objs, p, d, after), p, d);
    RestStartsBy(objs, p, d, after, v);
    if found != [] {
      FoundStartsBeyond(objs, p, d, after, v);
    }
    CutsDiffer(rest, found, max);
  }

  lemma RestStartsBy(objs: seq<ObjectVersion>, p: Str, d: Str, after: Str, v: ObjectVersion)
    requires StrictByKey(objs) && NonEmptyKeys(objs)
    requires v in objs && p <= v.key && Less(after, EntryValue(v.key, p, d))
    ensures var rest := Rest(Entries(objs, p, d), after);
            rest != [] && AtMost(rest[0].value, EntryValue(v.key, p, d))
  {
    KeyIsListed(objs, p, d, v);
    EntriesNonEmpty(objs, p, d);
    RestMember(Entries(objs, p, d), after, EntryFor(v, p, d));
    FirstIsLeast(Rest(Entries(objs, p, d), after), EntryFor(v, p, d));
  }

  lemma FirstIsLeast(es: seq<Entry>, e: Entry)
    requires StrictEntries(es) && e in es
    ensures AtMost(es[0].value, e.value)
  {
  }

  lemma FoundStartsBeyond(objs: seq<ObjectVersion>, p: Str, d: Str, after: Str, v: ObjectVersion)
    requires StrictByKey(objs) && v in objs && p <= v.key && Entries(Seek(objs, p, d, after), p, d) != []
    requires Skips(v.key, d, after) && Less(after, EntryValue(v.key, p, d))
    ensures !AtMost(Entries(Seek(objs, p, d, after), p, d)[0].value, EntryValue(v.key, p, d))
  {
    var sought := Seek(objs, p, d, after);
    SeekMember(objs, p, d, after);
    var u := EntryHasKey(sought, p, d, Entries(sought, p, d)[0]);
    SkippedRegion(u.key, v.key, p, d, after);
  }

  /** Of two prefixes of one string, the greater extends the smaller. */
  lemma GreaterPrefixExtends(a: Str, b: Str, s: Str)
    requires a <= s && b <= s && Less(a, b)
    ensures a <= b
  {
    assert forall i | 0 <= i < |a| :: a[i] == s[i];
    assert forall i | 0 <= i < |b| :: b[i] == s[i];
  }

  /** A key beyond every key under the position has a later entry than each of them. */
  lemma SkippedRegion(u: Str, v: Str, p: Str, d: Str, after: Str)
    requires p <= u && p <= v && after <= v && Less(after, u) && !(after <= u)
    requires Less(after, EntryValue(v, p, d))
    ensures !AtMost(EntryValue(u, p, d), EntryValue(v, p, d))
  {
    AboveExtensions(after, v, u);
    EntryValueMonotone(v, u, p, d);
    var x, y := EntryValue(v, p, d), EntryValue(u, p, d);
    EntryValueIsPrefix(u, p, d);
    EntryValueIsPrefix(v, p, d);
    GreaterPrefixExtends(after, x, v);
    assert after <= y ==> after <= u;
    LessTotal(x, y);
  }

  /** The SQL pager and the in-memory page agree, entries, truncation flag and next
      position alike, if and only if the page is empty by request or the resume rule is
      sound for the position. */
  lemma PagesAgreeIff(objs: seq<ObjectVersion>, p: Str, d: Str, after: Str, max: nat)
    requires StrictByKey(objs) && NonEmptyKeys(objs)
    ensures SeekPage(objs, p, d, after, max) == PageOf(Entries(objs, p, d), after, max)
            <==> max == 0 || ResumeSound(objs, p, d, after)
  {
    if ResumeSound(objs, p, d, after) {
      SoundResumeFindsRest(objs, p, d, after);
    } else if max > 0 {
      var v :| v in objs && p <= v.key && Less(after, v.key) &&
        !(Skips(v.key, d, after) <==> AtMost(EntryValue(v.key, p, d), after));
      LessTotal(EntryValue(v.key, p, d), after);
      if Skips(v.key, d, after) {
        LostEntryDiffers(objs, p, d, after, max, v);
      } else {
        ReplayedPrefixDiffers(objs, p, d, after, max, v);
      }
    }
  }

  // ---- Positions the server issues

  /** A position a listing with this prefix and delimiter can have ended on: the start,
      or the value of an entry. */
  predicate Issued(p: Str, d: Str, after: Str) {
    after == [] || (p <= after && EntryValue(after, p, d) == after)
  }

  /** An issued position that is an object key yet ends in the delimiter: the
      delimiter reaches back into the prefix, as in a folder marker equal to it. */
  predicate FolderMarker(p: Str, d: Str, after: Str) {
    after != [] && d != [] && HasSuffix(after, d) && p <= after && !Grouped(after, p, d)
  }

  ghost predicate HasKeyUnder(objs: seq<ObjectVersion>, after: Str) {
    exists v :: v in objs && after <= v.key && v.key != after
  }

  lemma IssuedFromEntry(objs: seq<ObjectVersion>, p: Str, d: Str, e: Entry)
    requires StrictByKey(objs) && e in Entries(objs, p, d)
    ensures Issued(p, d, e.value)
  {
    EntriesMeaning(objs, p, d);
    var v :| v in objs && p <= v.key && EntryFor(v, p, d) == e;
    EntryValueIdempotent(v.key, p, d);
  }

  /** A common prefix ends in the delimiter. */
  lemma CommonPrefixEnds(p: Str, d: Str, after: Str)
    requires p <= after && Grouped(after, p, d) && EntryValue(after, p, d) == after
    ensures HasSuffix(after, d)
  {
    var head := after[|p|..];
    var i := Index(head, d);
    assert after == p + head && |after| == |p| + i + |d|;
    assert head[i..i + |d|] == d && after[|p| + i..] == head[i..];
  }

  lemma IssuedCommonPrefix(key: Str, p: Str, d: Str, after: Str)
    requires p <= after && Grouped(after, p, d) && EntryValue(after, p, d) == after
    requires p <= key && Less(after, key)
    ensures Skips(key, d, after) <==> AtMost(EntryValue(key, p, d), after)
  {
    CommonPrefixEnds(p, d, after);
    hide Index, Lcp;
    EntryValueMonotone(after, key, p, d);
    LessTotal(after, EntryValue(key, p, d));
    if after <= key {
      CommonPrefixOf(key, after, p, d);
    } else if EntryValue(key, p, d) == after {
      EntryValueIsPrefix(key, p, d);
    }
  }

  lemma IssuedObjectKey(key: Str, p: Str, d: Str, after: Str)
    requires p <= after && !Grouped(after, p, d) && p <= key && Less(after, key)
    ensures Less(after, EntryValue(key, p, d))
  {
    EntryValueMonotone(after, key, p, d);
    LessTotal(after, key);
    if EntryValue(key, p, d) == after {
      EntryValueIdempotent(key, p, d);
    }
  }

  /** For a position the server issued, the resume rule goes wrong exactly at a folder
      marker that has keys under it. */
  lemma ResumeSoundIff(objs: seq<ObjectVersion>, p: Str, d: Str, after: Str)
    requires NonEmptyKeys(objs) && Issued(p, d, after)
    ensures ResumeSound(objs, p, d, after) <==> !(FolderMarker(p, d, after) && HasKeyUnder(objs, after))
  {
    if after == [] {
      forall v | v in objs && p <= v.key
        ensures !AtMost(EntryValue(v.key, p, d), [])
      {
        EntryValueIsPrefix(v.key, p, d);
        LessTotal(EntryValue(v.key, p, d), []);
        PrefixAtMost([], EntryValue(v.key, p, d));
      }
    } else if Grouped(after, p, d) {
      forall v | v in objs && p <= v.key && Less(after, v.key)
        ensures Skips(v.key, d, after) <==> AtMost(EntryValue(v.key, p, d), after)
      {
        IssuedCommonPrefix(v.key, p, d, after);
      }
    } else {
      forall v | v in objs && p <= v.key && Less(after, v.key)
        ensures !AtMost(EntryValue(v.key, p, d), after)
      {
        IssuedObjectKey(v.key, p, d, after);
        LessTotal(EntryValue(v.key, p, d), after);
      }
      if FolderMarker(p, d, after) && HasKeyUnder(objs, after) {
        var v :| v in objs && after <= v.key && v.key != after;
        PrefixAtMost(after, v.key);
        assert p <= v.key && Less(after, v.key) && Skips(v.key, d, after);
      }
      if !ResumeSound(objs, p, d, after) {
        var v :| v in objs && p <= v.key && Less(after, v.key) &&
          !(Skips(v.key, d, after) <==> AtMost(EntryValue(v.key, p, d), after));
        LessTotal(after, after);
        assert after <= v.key && v.key != after;
      }
    }
  }

  /** For every issued position and page size of at least one: the pager's page is the
      in-memory page, unless it resumes from a folder marker that has keys under it. */
  lemma IssuedPagesAgreeIff(objs: seq<ObjectVersion>, p: Str, d: Str, after: Str, max: nat)
    requires StrictByKey(objs) && NonEmptyKeys(objs) && Issued(p, d, after) && max > 0
    ensures SeekPage(objs, p, d, after, max) == PageOf(Entries(objs, p, d), after, max)
            <==> !(FolderMarker(p, d, after) && HasKeyUnder(objs, after))
  {
    PagesAgreeIff(objs, p, d, after, max);
    ResumeSoundIff(objs, p, d, after);
  }

  lemma SuffixOccurs(p: Str, tail: Str, d: Str)
    requires |d| <= |tail| && HasSuffix(p + tail, d)
    ensures OccursAt(tail, d, |tail| - |d|)
  {
    assert (p + tail)[|p + tail| - |d|..] == tail[|tail| - |d|..];
  }

  /** With a one-byte delimiter the only folder marker is the prefix itself. */
  lemma OneByteFolderMarker(p: Str, d: Str, after: Str)
    requires |d| == 1 && p <= after && after != []
    ensures FolderMarker(p, d, after) <==> after == p && HasSuffix(p, d)
  {
    var tail := after[|p|..];
    assert after == p + tail;
    if HasSuffix(after, d) && tail != [] {
      SuffixOccurs(p, tail, d);
    }
  }

  /** The pager loses the object "a/b" behind the folder marker "a/" that its page of one
      ended on; the whole listing goes on to it. */
  lemma FolderMarkerLosesObject(marker: ObjectVersion, child: ObjectVersion)
    requires marker.key == [97, 47] && child.key == [97, 47, 98]
    ensures var objs, p, d := [marker, child], [97, 47], [47];
            && StrictByKey(objs) && NonEmptyKeys(objs)
            && SeekPage(objs, p, d, [], 1) == Page([Entry(marker.key, Some(marker))], true, marker.key)
            && PageOf(Entries(objs, p, d), marker.key, 1).entries == [Entry(child.key, Some(child))]
            && SeekPage(objs, p, d, marker.key, 1).entries == []
  {
    hide Less, EntryFor, Skips, Seek, Entries, PageOf, Cut;
    var objs, p, d: Str := [marker, child], [97, 47], [47];
    var e0, e1 := Entry(marker.key, Some(marker)), Entry(child.key, Some(child));
    MarkerAndChild(marker, child);
    TwoObjects(marker, child, p, d, [], e0, e1);
    TwoObjects(marker, child, p, d, marker.key, e0, e1);
    PageOfTwo(e0, e1);
  }

  /** How the folder marker "a/" and the object "a/b" stand to each other. */
  lemma MarkerAndChild(marker: ObjectVersion, child: ObjectVersion)
    requires marker.key == [97, 47] && child.key == [97, 47, 98]
    ensures var p: Str, d: Str := [97, 47], [47];
            && EntryFor(marker, p, d) == Entry(marker.key, Some(marker))
            && EntryFor(child, p, d) == Entry(child.key, Some(child))
            && Skips(child.key, d, marker.key) && !Skips(marker.key, d, []) && !Skips(child.key, d, [])
            && Less([], marker.key) && Less([], child.key)
            && Less(marker.key, child.key) && !Less(marker.key, marker.key)
  {
    hide Less;
    var p: Str, d: Str := [97, 47], [47];
    PrefixAtMost(marker.key, child.key);
    PrefixAtMost([], marker.key);
    PrefixAtMost([], child.key);
    LessTotal(marker.key, marker.key);
    assert !Grouped(marker.key, p, d) && !Grouped(child.key, p, d) by {
      var tail: Str := [98];
      assert marker.key[|p|..] == [] && child.key[|p|..] == tail;
      assert !OccursAt(tail, d, 0) by { assert tail[0..1][0] == 98; }
      assert forall i | i != 0 :: !OccursAt(tail, d, i) && !OccursAt([], d, i);
    }
    assert HasSuffix(marker.key, d);
  }

  lemma PageOfTwo(e0: Entry, e1: Entry)
    requires e0.value != [] && Less(e0.value, e1.value) && !Less(e0.value, e0.value)
    ensures Cut([e0, e1], 1) == Page([e0], true, e0.value) && Cut([], 1).entries == []
    ensures PageOf([e0, e1], e0.value, 1).entries == [e1]
  {
    hide Less;
    assert [e0, e1][1..] == [e1] && FirstAbove([e1], e0.value) == 0;
    assert Rest([e0, e1], e0.value) == [e1];
  }

  /** Seeking and listing over two objects, unfolded. */
  lemma TwoObjects(a: ObjectVersion, b: ObjectVersion, p: Str, d: Str, after: Str, e0: Entry, e1: Entry)
    requires p <= a.key && p <= b.key && EntryFor(a, p, d) == e0 && EntryFor(b, p, d) == e1 && e0.value != e1.value
    ensures Entries([a, b], p, d) == [e0, e1]
    ensures Less(after, a.key) && Less(after, b.key) && !Skips(a.key, d, after) && !Skips(b.key, d, after)
            ==> Seek([a, b], p, d, after) == [a, b]
    ensures !Less(after, a.key) && Skips(b.key, d, after) ==> Seek([a, b], p, d, after) == []
    ensures Entries([], p, d) == []
  {
    hide Less, EntryFor, Skips;
    assert [a, b][..1] == [a] && [a][..0] == [];
    assert Entries([a], p, d) == [e0];
    assert Seek([a], p, d, after) == if Less(after, a.key) && !Skips(a.key, d, after) then [a] else [];
  }

  // ---- Following continuation tokens

  /** Where the server resumes with a token it issued at this position, or None where it refuses
      the token: prefix and delimiter have to come back as they are, the position not empty. */
  function Resume(carried: Str -> Str, p: Str, d: Str, next: Str): Option<Str> {
    if carried(p) != p || carried(d) != d || carried(next) == [] then None else Some(carried(next))
  }

  /** The pages a client sees that lists from `after` and follows every token it is given. */
  ghost predicate Walk(pager: Str -> Page, resume: Str -> Option<Str>, after: Str, pages: seq<Page>)
    decreases |pages|
  {
    && pages != []
    && pages[0] == pager(after)
    && if pages[0].truncated
       then resume(pages[0].next).Some? && Walk(pager, resume, resume(pages[0].next).value, pages[1..])
       else |pages| == 1
  }

  function Visited(pages: seq<Page>): seq<Entry> {
    if pages == [] then [] else pages[0].entries + Visited(pages[1..])
  }

  /** How many pages n entries make. */
  function PageCount(n: nat, max: nat): nat
    requires max > 0
  {
    if n <= max then 1 else 1 + PageCount(n - max, max)
  }

  /** That is ceil(n / max), and one for no entries. */
  function CeilPages(n: nat, max: nat): int
    requires max > 0
  {
    if n == 0 then 1 else (n + max - 1) / max
  }

  lemma {:induction false} PageCountIsCeil(n: nat, max: nat)
    requires max > 0
    ensures PageCount(n, max) == CeilPages(n, max)
  {
    if 0 < n <= max {
      DivIs(n + max - 1, max, 1);
    } else if n > max {
      PageCountIsCeil(n - max, max);
      DivStep(n - 1, max);
    }
  }

  /** A token issued at the i-th entry leads on to the entry after it. */
  ghost predicate LeadsOn(es: seq<Entry>, resume: Str -> Option<Str>, i: nat)
    requires 0 < i <= |es|
  {
    var r := resume(es[i - 1].value);
    r.Some? && Rest(es, r.value) == es[i..]
  }

  /** So do the tokens at the ends of all pages of this size behind the i-th entry. */
  ghost predicate TokensLeadOn(es: seq<Entry>, resume: Str -> Option<Str>, max: nat, i: nat)
    requires max > 0
  {
    forall j :: i < j < |es| && j % max == 0 ==> LeadsOn(es, resume, j)
  }

  lemma NextPageEnd(i: nat, max: nat)
    requires max > 0 && i % max == 0
    ensures (i + max) % max == 0
    ensures forall j :: i < j && j % max == 0 ==> i + max <= j
  {
    forall j | i < j && j % max == 0
      ensures i + max <= j
    {
      if j < i + max { ModBetween(i, j, max); }
    }
    ModBetween(i, i + max, max);
  }

  lemma ModBetween(i: nat, j: nat, max: nat)
    requires max > 0 && i % max == 0 && i < j <= i + max
    ensures j % max == if j == i + max then 0 else j - i
  {
    var k := i / max;
    assert i == k * max;
    if j == i + max { DivIs(j, max, k + 1); } else { DivIs(j, max, k); }
  }

  lemma RestAt(es: seq<Entry>, i: nat)
    requires StrictEntries(es) && 0 < i <= |es| && es[i - 1].value != []
    ensures Rest(es, es[i - 1].value) == es[i..]
  {
    var after := es[i - 1].value;
    forall k | 0 <= k < i
      ensures !Less(after, es[k].value)
    {
      LessTotal(es[k].value, after);
    }
    assert i < |es| ==> Less(after, es[i].value);
  }

  lemma SplitSuffix(es: seq<Entry>, i: nat, j: nat)
    requires i <= j <= |es|
    ensures es[i..] == es[i..][..j - i] + es[j..]
  {
  }

  /** The page that continues with the i-th entry. */
  lemma PageAt(es: seq<Entry>, max: nat, i: nat, after: Str)
    requires max > 0 && i <= |es| && Rest(es, after) == es[i..]
    ensures PageOf(es, after, max) ==
            if i + max < |es| then Page(es[i..][..max], true, es[i + max - 1].value) else Page(es[i..], false, [])
  {
    hide Rest;
    assert i + max < |es| ==> es[i..][max - 1] == es[i + max - 1];
  }

  /** A walk is its first page and, while that is truncated, the walk from its token. */
  lemma WalkUnfold(pager: Str -> Page, resume: Str -> Option<Str>, after: Str, pages: seq<Page>)
    requires Walk(pager, resume, after, pages)
    ensures |pages| >= 1 && pages[0] == pager(after) && Visited(pages) == pages[0].entries + Visited(pages[1..])
    ensures if pages[0].truncated
            then resume(pages[0].next).Some? && Walk(pager, resume, resume(pages[0].next).value, pages[1..])
            else pages[1..] == []
  {
  }

  lemma NothingVisited()
    ensures Visited([]) == []
  {
  }

  /** The walk over what remains of a fixed listing from its i-th entry on. */
  lemma {:induction false} WalkFromEntry(pager: Str -> Page, resume: Str -> Option<Str>, es: seq<Entry>, max: nat,
                                         i: nat, after: Str, pages: seq<Page>)
    requires max > 0 && i % max == 0 && TokensLeadOn(es, resume, max, i)
    requires forall a :: pager(a) == PageOf(es, a, max)
    requires i <= |es| && Rest(es, after) == es[i..] && Walk(pager, resume, after, pages)
    ensures Visited(pages) == es[i..] && |pages| == PageCount(|es| - i, max)
    decreases |pages|
  {
    hide Rest, PageOf, Walk, Visited;
    WalkUnfold(pager, resume, after, pages);
    assert pages[0] == PageOf(es, after, max);
    PageAt(es, max, i, after);
    if i + max < |es| {
      var j := i + max;
      NextPageEnd(i, max);
      assert LeadsOn(es, resume, j);
      WalkFromEntry(pager, resume, es, max, j, resume(pages[0].next).value, pages[1..]);
      SplitSuffix(es, i, j);
    } else {
      NothingVisited();
    }
  }

  /** The walk from the i-th entry on, page by page. */
  lemma {:induction false} WalkEnds(pager: Str -> Page, resume: Str -> Option<Str>, es: seq<Entry>, max: nat, i: nat,
                                    after: Str)
    returns (pages: seq<Page>)
    requires max > 0 && i % max == 0 && TokensLeadOn(es, resume, max, i)
    requires forall a :: pager(a) == PageOf(es, a, max)
    requires i <= |es| && Rest(es, after) == es[i..]
    ensures Walk(pager, resume, after, pages)
    decreases |es| - i
  {
    hide Rest, PageOf;
    var page := PageOf(es, after, max);
    PageAt(es, max, i, after);
    if i + max < |es| {
      var j := i + max;
      NextPageEnd(i, max);
      assert LeadsOn(es, resume, j);
      var rest := WalkEnds(pager, resume, es, max, j, resume(page.next).value);
      pages := [page] + rest;
      assert pages[1..] == rest;
    } else {
      pages := [page];
    }
  }

  /** What a walk visits first is what its first page starts with. */
  lemma FirstVisited(pager: Str -> Page, resume: Str -> Option<Str>, es: seq<Entry>, max: nat, after: Str,
                     pages: seq<Page>)
    requires max > 0 && pager(after) == PageOf(es, after, max) && Walk(pager, resume, after, pages)
    ensures if Rest(es, after) == [] then Visited(pages) == []
            else Visited(pages) != [] && Visited(pages)[0] == Rest(es, after)[0]
  {
    hide Rest, Walk, Visited;
    WalkUnfold(pager, resume, after, pages);
    NothingVisited();
  }

  /** A walk that visits the rest of the listing used tokens that lead on. */
  lemma {:induction false} VisitsMeansTokens(pager: Str -> Page, resume: Str -> Option<Str>, es: seq<Entry>, max: nat,
                                             i: nat, after: Str, pages: seq<Page>)
    requires StrictEntries(es) && max > 0 && i % max == 0
    requires forall a :: pager(a) == PageOf(es, a, max)
    requires i <= |es| && Rest(es, after) == es[i..] && Walk(pager, resume, after, pages) && Visited(pages) == es[i..]
    ensures TokensLeadOn(es, resume, max, i)
    decreases |pages|
  {
    hide Rest, PageOf, Walk, Visited, Less;
    WalkUnfold(pager, resume, after, pages);
    assert pages[0] == PageOf(es, after, max);
    PageAt(es, max, i, after);
    NextPageEnd(i, max);
    if i + max < |es| {
      var j := i + max;
      var at := resume(pages[0].next).value;
      SplitSuffix(es, i, j);
      assert Visited(pages[1..]) == es[j..];
      FirstVisited(pager, resume, es, max, at, pages[1..]);
      SuffixByFirst(es, at, j);
      VisitsMeansTokens(pager, resume, es, max, j, at, pages[1..]);
    }
  }

  /** The rest of a listing is known by its first entry. */
  lemma SuffixByFirst(es: seq<Entry>, after: Str, j: nat)
    requires StrictEntries(es) && j < |es| && Rest(es, after) != [] && Rest(es, after)[0] == es[j]
    ensures Rest(es, after) == es[j..]
  {
    hide Less;
    var k := if after == [] then 0 else FirstAbove(es, after);
    assert Rest(es, after) == es[k..] && es[k] == es[j];
    LessTotal(es[j].value, es[j].value);
  }

  /** Following tokens over a fixed listing visits every entry exactly once, in strictly
      increasing order, in ceil(n / max) pages (one for an empty listing), if the tokens at the
      ends of the pages lead on. */
  lemma WalkVisitsAll(pager: Str -> Page, resume: Str -> Option<Str>, objs: seq<ObjectVersion>, p: Str, d: Str,
                      max: nat, pages: seq<Page>)
    requires StrictByKey(objs) && max > 0 && TokensLeadOn(Entries(objs, p, d), resume, max, 0)
    requires forall a :: pager(a) == PageOf(Entries(objs, p, d), a, max)
    requires Walk(pager, resume, [], pages)
    ensures Visited(pages) == Entries(objs, p, d) && StrictEntries(Visited(pages))
    ensures |pages| == CeilPages(|Entries(objs, p, d)|, max)
  {
    var es := Entries(objs, p, d);
    assert StrictEntries(es) by { EntriesMeaning(objs, p, d); }
    hide Less, Entries, PageOf, Walk, Visited, TokensLeadOn, PageCount, CeilPages;
    assert es[0..] == es;
    WalkFromEntry(pager, resume, es, max, 0, [], pages);
    PageCountIsCeil(|es|, max);
  }

  /** A client that follows tokens gets to see the whole listing if and only if the token at the
      end of every page but the last leads on to the next entry. */
  lemma WalkVisitsAllIff(pager: Str -> Page, resume: Str -> Option<Str>, objs: seq<ObjectVersion>, p: Str, d: Str,
                         max: nat)
    requires StrictByKey(objs) && max > 0
    requires forall a :: pager(a) == PageOf(Entries(objs, p, d), a, max)
    ensures (exists pages :: Walk(pager, resume, [], pages) && Visited(pages) == Entries(objs, p, d))
            <==> TokensLeadOn(Entries(objs, p, d), resume, max, 0)
  {
    var es := Entries(objs, p, d);
    assert StrictEntries(es) by { EntriesMeaning(objs, p, d); }
    hide Less, Entries, PageOf, Walk, TokensLeadOn, Visited;
    assert es[0..] == es;
    if TokensLeadOn(es, resume, max, 0) {
      var pages := WalkEnds(pager, resume, es, max, 0, []);
      WalkFromEntry(pager, resume, es, max, 0, [], pages);
    }
    if pages :| Walk(pager, resume, [], pages) && Visited(pages) == es {
      VisitsMeansTokens(pager, resume, es, max, 0, [], pages);
    }
  }

  // ---- What tokens carry

  /** A listing of UTF-8. */
  ghost predicate AllUtf8(objs: seq<ObjectVersion>, p: Str, d: Str) {
    Utf8.Valid(p) && Utf8.Valid(d) && forall v :: v in objs ==> Utf8.Valid(v.key)
  }

  lemma EntryIsUtf8(key: Str, p: Str, d: Str)
    requires p <= key && Utf8.Valid(key) && Utf8.Valid(d)
    ensures Utf8.Valid(EntryValue(key, p, d))
  {
    hide Utf8.Valid;
    if Grouped(key, p, d) {
      var tail := key[|p|..];
      var n := |p| + Index(tail, d) + |d|;
      assert key == p + tail && key[n - |d|..n] == tail[Index(tail, d)..Index(tail, d) + |d|];
      assert EntryValue(key, p, d) == key[..n];
      Utf8.ValidUpTo(key, d, n);
    }
  }

  /** The token codec brings the entries of such a listing back as they are. */
  lemma Utf8Resumes(objs: seq<ObjectVersion>, p: Str, d: Str, e: Entry)
    requires StrictByKey(objs) && NonEmptyKeys(objs) && AllUtf8(objs, p, d) && e in Entries(objs, p, d)
    ensures e.value != [] && Resume(Utf8.Coerced, p, d, e.value) == Some(e.value)
  {
    hide Utf8.Valid, Utf8.Coerced, Less;
    EntriesMeaning(objs, p, d);
    var v :| v in objs && p <= v.key && EntryFor(v, p, d) == e;
    EntryValueIsPrefix(v.key, p, d);
    EntryIsUtf8(v.key, p, d);
    Utf8.CoercedIff(p);
    Utf8.CoercedIff(d);
    Utf8.CoercedIff(e.value);
  }

  /** Where all keys, the prefix and the delimiter are UTF-8, every token leads on. */
  lemma Utf8TokensLeadOn(objs: seq<ObjectVersion>, p: Str, d: Str, max: nat)
    requires StrictByKey(objs) && NonEmptyKeys(objs) && AllUtf8(objs, p, d) && max > 0
    ensures TokensLeadOn(Entries(objs, p, d), a => Resume(Utf8.Coerced, p, d, a), max, 0)
  {
    var es := Entries(objs, p, d);
    EntriesMeaning(objs, p, d);
    hide Resume, Entries, Less, Rest, AllUtf8;
    forall j | 0 < j < |es| && j % max == 0
      ensures LeadsOn(es, a => Resume(Utf8.Coerced, p, d, a), j)
    {
      assert es[j - 1] in es;
      Utf8Resumes(objs, p, d, es[j - 1]);
      RestAt(es, j);
    }
  }

  /** Two keys, 0xfe and 0xff, in pages of one: the token of the first page brings back U+FFFD,
      which comes before both, so the client is given the first page for ever. */
  lemma {:induction false} NotUtf8NeverEnds(a: ObjectVersion, b: ObjectVersion, pager: Str -> Page, after: Str,
                                            pages: seq<Page>)
    requires a.key == [0xfe] && b.key == [0xff] && (after == [] || after == Utf8.REPLACEMENT)
    requires forall x :: pager(x) == PageOf(Entries([a, b], [], []), x, 1)
    ensures StrictByKey([a, b]) && !Walk(pager, x => Resume(Utf8.Coerced, [], [], x), after, pages)
    decreases |pages|
  {
    var resume := x => Resume(Utf8.Coerced, [], [], x);
    FirstPageAgain(a, b, after);
    if Walk(pager, resume, after, pages) {
      NotUtf8NeverEnds(a, b, pager, resume(pages[0].next).value, pages[1..]);
    }
  }

  lemma FirstPageAgain(a: ObjectVersion, b: ObjectVersion, after: Str)
    requires a.key == [0xfe] && b.key == [0xff] && (after == [] || after == Utf8.REPLACEMENT)
    ensures StrictByKey([a, b])
    ensures PageOf(Entries([a, b], [], []), after, 1) == Page([Entry(a.key, Some(a))], true, a.key)
    ensures Resume(Utf8.Coerced, [], [], a.key) == Some(Utf8.REPLACEMENT)
  {
    var e0, e1 := Entry(a.key, Some(a)), Entry(b.key, Some(b));
    LcpUnique(a.key, b.key, 0);
    LcpUnique(Utf8.REPLACEMENT, a.key, 0);
    TwoObjects(a, b, [], [], [], e0, e1);
    assert Utf8.RuneLen([0xfe]) == 0 && [0xfe][1..] == [];
    assert Utf8.Coerced([0xfe]) == Utf8.REPLACEMENT + Utf8.Coerced([]) == Utf8.REPLACEMENT;
    assert Rest([e0, e1], after) == [e0, e1];
    assert [e0, e1][..1] == [e0];
  }

  // ---- Following the tokens of the SQL pager

  /** The SQL pager resumes from this token with the page of the whole listing. */
  ghost predicate ResumesWell(objs: seq<ObjectVersion>, p: Str, d: Str, resume: Str -> Option<Str>, next: Str) {
    var r := resume(next);
    r.Some? ==> ResumeSound(objs, p, d, r.value)
  }

  /** A client of the SQL pager sees the walk of the whole listing if and only if the resume
      rule is sound for every position its tokens bring back. */
  lemma {:induction false} SqlWalkIff(sql: Str -> Page, memory: Str -> Page, resume: Str -> Option<Str>,
                                      objs: seq<ObjectVersion>, p: Str, d: Str, max: nat, after: Str, pages: seq<Page>)
    requires StrictByKey(objs) && NonEmptyKeys(objs) && max > 0
    requires forall a :: memory(a) == PageOf(Entries(objs, p, d), a, max)
    requires forall a :: sql(a) == SeekPage(objs, p, d, a, max)
    requires Walk(memory, resume, after, pages)
    ensures Walk(sql, resume, after, pages) <==>
            ResumeSound(objs, p, d, after) &&
            forall i :: 0 <= i < |pages| - 1 ==> ResumesWell(objs, p, d, resume, pages[i].next)
    decreases |pages|
  {
    PagesAgreeIff(objs, p, d, after, max);
    hide ResumeSound, SeekPage, PageOf, Entries;
    if pages[0].truncated {
      SqlWalkIff(sql, memory, resume, objs, p, d, max, resume(pages[0].next).value, pages[1..]);
      WalkTail(objs, p, d, resume, pages);
    }
  }

  /** Where all is UTF-8: if and only if no page it continues from ends on a folder marker with
      keys under it. */
  lemma SqlWalkMarkersIff(sql: Str -> Page, memory: Str -> Page, objs: seq<ObjectVersion>, p: Str, d: Str, max: nat,
                          pages: seq<Page>)
    requires StrictByKey(objs) && NonEmptyKeys(objs) && max > 0 && AllUtf8(objs, p, d)
    requires forall a :: memory(a) == PageOf(Entries(objs, p, d), a, max)
    requires forall a :: sql(a) == SeekPage(objs, p, d, a, max)
    requires Walk(memory, a => Resume(Utf8.Coerced, p, d, a), [], pages)
    ensures Walk(sql, a => Resume(Utf8.Coerced, p, d, a), [], pages) <==>
            forall i :: 0 <= i < |pages| - 1 ==>
              !(FolderMarker(p, d, pages[i].next) && HasKeyUnder(objs, pages[i].next))
  {
    var resume := a => Resume(Utf8.Coerced, p, d, a);
    SqlWalkIff(sql, memory, resume, objs, p, d, max, [], pages);
    ResumeSoundIff(objs, p, d, []);
    hide Walk, PageOf, Entries, SeekPage, FolderMarker, HasKeyUnder, ResumeSound, AllUtf8, Resume;
    forall i | 0 <= i < |pages| - 1
      ensures ResumesWell(objs, p, d, resume, pages[i].next) <==>
              !(FolderMarker(p, d, pages[i].next) && HasKeyUnder(objs, pages[i].next))
    {
      var e := NextIsEntry(memory, resume, Entries(objs, p, d), max, [], pages, i);
      Utf8Resumes(objs, p, d, e);
      IssuedFromEntry(objs, p, d, e);
      ResumeSoundIff(objs, p, d, e.value);
    }
  }

  /** Every page of a walk but the last ends on an entry. */
  lemma {:induction false} NextIsEntry(pager: Str -> Page, resume: Str -> Option<Str>, es: seq<Entry>, max: nat,
                                       after: Str, pages: seq<Page>, i: nat) returns (e: Entry)
    requires max > 0 && Walk(pager, resume, after, pages) && i < |pages| - 1
    requires forall a :: pager(a) == PageOf(es, a, max)
    ensures e in es && e.value == pages[i].next
    decreases |pages|
  {
    WalkUnfold(pager, resume, after, pages);
    hide FirstAbove, Walk;
    if i == 0 {
      e := Rest(es, after)[max - 1];
    } else {
      e := NextIsEntry(pager, resume, es, max, resume(pages[0].next).value, pages[1..], i - 1);
    }
  }

  lemma WalkTail(objs: seq<ObjectVersion>, p: Str, d: Str, resume: Str -> Option<Str>, pages: seq<Page>)
    requires |pages| > 1
    ensures (forall i :: 0 <= i < |pages| - 1 ==> ResumesWell(objs, p, d, resume, pages[i].next)) <==>
            ResumesWell(objs, p, d, resume, pages[0].next) &&
            forall i :: 0 <= i < |pages[1..]| - 1 ==> ResumesWell(objs, p, d, resume, pages[1..][i].next)
  {
    hide ResumesWell;
    if forall i :: 0 <= i < |pages| - 1 ==> ResumesWell(objs, p, d, resume, pages[i].next) {
      forall i | 0 <= i < |pages[1..]| - 1
        ensures ResumesWell(objs, p, d, resume, pages[1..][i].next)
      {
        assert pages[1..][i] == pages[i + 1];
      }
    }
    if ResumesWell(objs, p, d, resume, pages[0].next) &&
       forall i :: 0 <= i < |pages[1..]| - 1 ==> ResumesWell(objs, p, d, resume, pages[1..][i].next) {
      forall i | 0 <= i < |pages| - 1
        ensures ResumesWell(objs, p, d, resume, pages[i].next)
      {
        assert i > 0 ==> pages[i] == pages[1..][i - 1];
      }
    }
  }
}
