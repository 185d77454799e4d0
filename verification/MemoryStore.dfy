/** The in-memory metadata store (internal/metadata/store.go) on the heap: version lists are
    slices over shared backing arrays that operations edit in place, and a transaction works
    on a clone that replaces the state when its callback succeeds. */
module MemoryStore {
  import opened Bytes
  import opened Metadata
  import opened Versions

  // ---- Go slices

  datatype Slice = Slice(arr: array<ObjectVersion>, len: nat)

  ghost predicate SliceOk(s: Slice) {
    s.len <= s.arr.Length
  }

  ghost function Elems(s: Slice): seq<ObjectVersion>
    requires SliceOk(s)
    reads s.arr
  {
    s.arr[..s.len]
  }

  /** append(s, v): into spare capacity when there is some, else into a larger copy. */
  method Append(s: Slice, v: ObjectVersion) returns (t: Slice)
    requires SliceOk(s)
    modifies s.arr
    ensures SliceOk(t) && Elems(t) == old(Elems(s)) + [v]
    ensures t.arr == s.arr || fresh(t.arr)
  {
    if s.len < s.arr.Length {
      s.arr[s.len] := v;
      t := Slice(s.arr, s.len + 1);
    } else {
      var bigger := new ObjectVersion[2 * s.len + 1];
      for i := 0 to s.len
        invariant s.arr[..] == old(s.arr[..]) && bigger[..i] == s.arr[..i]
      {
        bigger[i] := s.arr[i];
      }
      bigger[s.len] := v;
      t := Slice(bigger, s.len + 1);
    }
  }

  /** The filter of putObjectVersion: it overwrites the front of the array it reads from. */
  method DropNull(s: Slice) returns (t: Slice)
    requires SliceOk(s)
    modifies s.arr
    ensures SliceOk(t) && t.arr == s.arr && Elems(t) == Without(old(Elems(s)), NULL_ID)
  {
    ghost var vs := Elems(s);
    var j := 0;
    for i := 0 to s.len
      invariant 0 <= j <= i
      invariant s.arr[..j] == Without(vs[..i], NULL_ID)
      invariant forall x :: i <= x < s.len ==> s.arr[x] == vs[x]
    {
      var existing := s.arr[i];
      assert vs[..i + 1][..i] == vs[..i];
      ghost var kept := s.arr[..j];
      if existing.versionId != NULL_ID {
        s.arr[j] := existing;
        j := j + 1;
        assert s.arr[..j] == kept + [existing];
      }
    }
    assert vs[..s.len] == vs;
    t := Slice(s.arr, j);
  }

  method FindVersion(s: Slice, id: Str) returns (i: int)
    requires SliceOk(s)
    ensures i == Find(Elems(s), id)
  {
    i := 0;
    while i < s.len
      invariant 0 <= i <= s.len
      invariant forall j :: 0 <= j < i ==> s.arr[j].versionId != id
    {
      if s.arr[i].versionId == id {
        return;
      }
      i := i + 1;
    }
    i := -1;
  }

  /** append(s[:i], s[i+1:]...): the tail moves one place to the left. */
  method RemoveAt(s: Slice, i: nat) returns (t: Slice)
    requires SliceOk(s) && i < s.len
    modifies s.arr
    ensures SliceOk(t) && t.arr == s.arr && Elems(t) == old(Elems(s)[..i] + Elems(s)[i + 1..])
  {
    ghost var vs := Elems(s);
    for j := i to s.len - 1
      invariant forall x :: 0 <= x < i ==> s.arr[x] == vs[x]
      invariant forall x :: i <= x < j ==> s.arr[x] == vs[x + 1]
      invariant forall x :: j < x < s.len ==> s.arr[x] == vs[x]
    {
      s.arr[j] := s.arr[j + 1];
    }
    t := Slice(s.arr, s.len - 1);
    ghost var cut := vs[..i] + vs[i + 1..];
    assert forall x | 0 <= x < s.len - 1 :: s.arr[x] == cut[x];
  }

  // ---- The state

  datatype ConfigKind = Website | Cors | Policy | PublicAccess | Lifecycle | Notification | Replication

  datatype ConfigKey = ConfigKey(kind: ConfigKind, bucket: Str)

  /** The state as a value: what every map and list holds. */
  datatype Snapshot = Snapshot(
    buckets: map<Str, Bucket>,
    objects: Lists,
    multipart: map<Str, MultipartUpload>,
    parts: map<Str, map<int, MultipartPart>>,
    credentials: map<Str, CredentialRecord>,
    configs: map<ConfigKey, Str>,
    taggings: map<(ObjectKey, Str), Str>)

  /** The part map of one upload, a map of its own on the heap. */
  class PartTable {
    var m: map<int, MultipartPart>

    constructor (m: map<int, MultipartPart>)
      ensures this.m == m
    {
      this.m := m;
    }
  }

  lemma UnchangedStore(m: Lists, k: ObjectKey)
    requires ListsOk(m)
    ensures Store(m, k, Get(m, k)) == m
  {
  }

  class MemoryState {
    var buckets: map<Str, Bucket>
    var objects: map<ObjectKey, Slice>
    var multipart: map<Str, MultipartUpload>
    var parts: map<Str, PartTable>
    var credentials: map<Str, CredentialRecord>
    var configs: map<ConfigKey, Str>
    var taggings: map<(ObjectKey, Str), Str>

    ghost function Arrays(): set<array<ObjectVersion>>
      reads this`objects
    {
      set k | k in objects :: objects[k].arr
    }

    ghost function Tables(): set<PartTable>
      reads this`parts
    {
      set u | u in parts :: parts[u]
    }

    /** No two lists share a backing array, ... */
    ghost predicate SlicesOk()
      reads this`objects
    {
      && (forall k :: k in objects ==> SliceOk(objects[k]))
      && (forall k, l :: k in objects && l in objects && k != l ==> objects[k].arr != objects[l].arr)
    }

    /** ... and no two uploads share a part map. */
    ghost predicate TablesOk()
      reads this`parts
    {
      forall u, w :: u in parts && w in parts && u != w ==> parts[u] != parts[w]
    }

    ghost predicate Valid()
      reads this`objects, this`parts
    {
      SlicesOk() && TablesOk()
    }

    ghost function ListsOf(): Lists
      requires SlicesOk()
      reads this`objects, Arrays()
    {
      map k | k in objects :: Elems(objects[k])
    }

    ghost function PartsOf(): map<Str, map<int, MultipartPart>>
      reads this`parts, Tables()
    {
      map u | u in parts :: parts[u].m
    }

    ghost function Snap(): Snapshot
      requires Valid()
      reads this, Arrays(), Tables()
    {
      Snapshot(buckets, ListsOf(), multipart, PartsOf(), credentials, configs, taggings)
    }

    constructor ()
      ensures Valid() && Snap() == Snapshot(map[], map[], map[], map[], map[], map[], map[])
    {
      buckets, objects, multipart, parts := map[], map[], map[], map[];
      credentials, configs, taggings := map[], map[], map[];
    }

    /** A state around existing maps. */
    constructor Of(buckets: map<Str, Bucket>, objects: map<ObjectKey, Slice>, multipart: map<Str, MultipartUpload>,
                   parts: map<Str, PartTable>, credentials: map<Str, CredentialRecord>,
                   configs: map<ConfigKey, Str>, taggings: map<(ObjectKey, Str), Str>)
      ensures this.buckets == buckets && this.objects == objects && this.multipart == multipart && this.parts == parts
      ensures this.credentials == credentials && this.configs == configs && this.taggings == taggings
    {
      this.buckets, this.objects, this.multipart, this.parts := buckets, objects, multipart, parts;
      this.credentials, this.configs, this.taggings := credentials, configs, taggings;
    }

    method SliceOf(k: ObjectKey) returns (s: Slice)
      requires Valid()
      ensures SliceOk(s) && Elems(s) == Get(ListsOf(), k)
      ensures if k in objects then s == objects[k] else fresh(s.arr)
    {
      if k in objects {
        s := objects[k];
      } else {
        var empty := new ObjectVersion[0];
        s := Slice(empty, 0);
      }
    }

    /** The lists are those of m except that of k, which is vs. */
    ghost predicate DiffersAt(m: Lists, k: ObjectKey, vs: seq<ObjectVersion>)
      requires SlicesOk()
      reads this`objects, Arrays()
    {
      && (forall l :: l != k ==> (l in objects <==> l in m))
      && (forall l :: l in objects && l in m && l != k ==> Elems(objects[l]) == m[l])
      && if vs == [] then k !in objects else k in objects && Elems(objects[k]) == vs
    }

    lemma OneListChanged(m: Lists, k: ObjectKey, vs: seq<ObjectVersion>)
      requires Valid() && DiffersAt(m, k, vs)
      ensures ListsOf() == Store(m, k, vs)
    {
    }

    /** Every list but that of k still is the one in m. */
    ghost predicate OthersAre(m: Lists, k: ObjectKey)
      requires SlicesOk()
      reads this`objects, Arrays()
    {
      && objects.Keys == m.Keys
      && forall l :: l in objects && l != k ==> Elems(objects[l]) == m[l]
    }

    /** Assign the list of one key, dropping the key when the list is empty. */
    method SetSlice(k: ObjectKey, s: Slice, ghost m: Lists)
      requires Valid() && SliceOk(s) && OthersAre(m, k)
      requires forall l :: l in objects && l != k ==> objects[l].arr != s.arr
      modifies this`objects
      ensures Valid() && Arrays() <= old(Arrays()) + {s.arr}
      ensures ListsOf() == Store(m, k, Elems(s)) && PartsOf() == old(PartsOf())
    {
      objects := if s.len == 0 then objects - {k} else objects[k := s];
      OneListChanged(m, k, Elems(s));
    }

    /** The array edits of a put: null versions filtered out in place, the new one appended. */
    method PutIntoSlice(k: ObjectKey, v: ObjectVersion) returns (s: Slice)
      requires Valid()
      modifies Arrays()
      ensures SliceOk(s) && Elems(s) == PutList(old(Get(ListsOf(), k)), v)
      ensures OthersAre(old(ListsOf()), k) && PartsOf() == old(PartsOf())
      ensures if k in objects then s.arr == objects[k].arr || fresh(s.arr) else fresh(s.arr)
    {
      hide Without;
      s := SliceOf(k);
      if v.versionId == NULL_ID {
        s := DropNull(s);
      }
      s := Append(s, v);
    }

    /** putObjectVersion. */
    method PutObjectVersion(v: ObjectVersion)
      requires Valid()
      modifies this`objects, Arrays()
      ensures Valid() && fresh(Arrays() - old(Arrays()))
      ensures ListsOf() == Step(old(ListsOf()), Put(v)).0 && PartsOf() == old(PartsOf())
    {
      hide PutList;
      ghost var before := ListsOf();
      var k := ObjectKey(v.bucket, v.key);
      var s := PutIntoSlice(k, v);
      SetSlice(k, s, before);
    }

    /** DeleteObject: append a delete marker. */
    method DeleteObject(k: ObjectKey, id: Str, at: int)
      requires Valid()
      modifies this`objects, Arrays()
      ensures Valid() && fresh(Arrays() - old(Arrays()))
      ensures ListsOf() == Step(old(ListsOf()), PutMarker(k, id, at)).0 && PartsOf() == old(PartsOf())
    {
      PutObjectVersion(Marker(k, id, at));
    }

    method GetLatestObjectVersion(k: ObjectKey) returns (reply: Reply)
      requires Valid()
      ensures reply == Step(ListsOf(), GetLatest(k)).1
    {
      if k !in objects || objects[k].len == 0 {
        return NotFound;
      }
      reply := One(objects[k].arr[objects[k].len - 1]);
    }

    method GetObjectVersion(k: ObjectKey, id: Str) returns (reply: Reply)
      requires Valid()
      ensures reply == Step(ListsOf(), GetVersion(k, id)).1
    {
      if id == [] {
        reply := GetLatestObjectVersion(k);
        return;
      }
      var s := SliceOf(k);
      var i := FindVersion(s, id);
      reply := if i < 0 then NotFound else One(s.arr[i]);
    }

    method UpdateObjectMetadata(k: ObjectKey, id: Str, metadata: map<Str, Str>) returns (reply: Reply)
      requires Valid() && ListsOk(ListsOf())
      modifies this`objects, Arrays()
      ensures Valid() && fresh(Arrays() - old(Arrays())) && PartsOf() == old(PartsOf())
      ensures (ListsOf(), reply) == Step(old(ListsOf()), UpdateMetadata(k, id, metadata))
    {
      hide Find, ListsOf;
      var i := Locate(k, id);
      UnchangedStore(ListsOf(), k);
      if i < 0 {
        reply := NotFound;
      } else {
        SetMetadata(k, i, metadata);
        reply := Done;
      }
    }

    method Locate(k: ObjectKey, id: Str) returns (i: int)
      requires Valid()
      ensures i == Find(Get(ListsOf(), k), id)
      ensures i >= 0 ==> k in objects && i < objects[k].len
    {
      if k in objects {
        i := FindVersion(objects[k], id);
      } else {
        i := -1;
      }
    }

    /** versions[i] = v, in place. */
    method SetMetadata(k: ObjectKey, i: nat, metadata: map<Str, Str>)
      requires Valid() && k in objects && i < objects[k].len
      modifies this`objects, Arrays()
      ensures Valid() && fresh(Arrays() - old(Arrays())) && PartsOf() == old(PartsOf())
      ensures var vs := Get(old(ListsOf()), k);
              i < |vs| && ListsOf() == Store(old(ListsOf()), k, vs[i := vs[i].(metadata := metadata)])
    {
      ghost var before := ListsOf();
      ghost var vs := Elems(objects[k]);
      var arr := objects[k].arr;
      arr[i] := arr[i].(metadata := metadata);
      assert Elems(objects[k]) == vs[i := vs[i].(metadata := metadata)];
      SetSlice(k, objects[k], before);
    }

    method DeleteObjectVersion(k: ObjectKey, id: Str) returns (reply: Reply)
      requires Valid() && ListsOk(ListsOf())
      modifies this`objects, Arrays()
      ensures Valid() && fresh(Arrays() - old(Arrays())) && PartsOf() == old(PartsOf())
      ensures (ListsOf(), reply) == Step(old(ListsOf()), DeleteVersion(k, id))
    {
      hide Find, ListsOf;
      var i := Locate(k, id);
      UnchangedStore(ListsOf(), k);
      if i < 0 {
        reply := NotFound;
      } else {
        var removed := CutVersion(k, i);
        reply := One(removed);
      }
    }

    method CutVersion(k: ObjectKey, i: nat) returns (removed: ObjectVersion)
      requires Valid() && k in objects && i < objects[k].len
      modifies this`objects, Arrays()
      ensures Valid() && fresh(Arrays() - old(Arrays())) && PartsOf() == old(PartsOf())
      ensures var vs := Get(old(ListsOf()), k);
              i < |vs| && removed == vs[i] && ListsOf() == Store(old(ListsOf()), k, vs[..i] + vs[i + 1..])
    {
      ghost var before := ListsOf();
      removed := objects[k].arr[i];
      var s := RemoveAt(objects[k], i);
      SetSlice(k, s, before);
    }

    method DeleteAllObjectVersions(k: ObjectKey) returns (reply: Reply)
      requires Valid() && ListsOk(ListsOf())
      modifies this`objects
      ensures Valid() && fresh(Arrays() - old(Arrays())) && PartsOf() == old(PartsOf())
      ensures (ListsOf(), reply) == Step(old(ListsOf()), DeleteAll(k))
    {
      ghost var before := ListsOf();
      if k !in objects || objects[k].len == 0 {
        UnchangedStore(ListsOf(), k);
        return NotFound;
      }
      reply := Many(objects[k].arr[..objects[k].len]);
      objects := objects - {k};
      OneListChanged(before, k, []);
    }
  }
}
