/** The blob commit protocol (internal/blob/store.go): temp file, stream, sync, rename,
    interleaved step by step with promotions, deletes, the periodic Recover pass and crashes. */
module BlobCommit {
  import opened Bytes
  import opened Metadata

  /** ObjectPath and multipartPartPath, taken as injective; temp names are random. */
  datatype Path = Temp(name: nat) | Part(upload: Str, number: nat) | Object(ref: Ref)

  datatype Fsync = Strict | Safe | Fast

  /** File contents, and how much of them a crash is sure to keep. */
  datatype Inode = Inode(content: Str, durable: nat)

  /** One WriteObject or WriteMultipartPart call in flight. The descriptor keeps writing
      to its inode even when the temp name is gone. */
  datatype Writer = Writer(temp: nat, inode: nat, src: Str, written: nat, closed: bool, dest: Path)

  /** The renames made so far: a write committed its whole source stream, or a staged part
      became an object. */
  datatype Event = Committed(dest: Path, src: Str) | Promoted(upload: Str, number: nat, ref: Ref)

  datatype Link = Link(path: Path, inode: nat)

  /** A directory, by the names on the way to it from the store's root. */
  type Dir = seq<Str>

  const TMP: Str := [116, 109, 112]
  const MULTIPART: Str := [109, 117, 108, 116, 105, 112, 97, 114, 116]
  const OBJECTS: Str := [111, 98, 106, 101, 99, 116, 115]

  /** Files and directories as they read now; the files and directories whose entry changed
      since its own directory was last synced; and the entries files had before: a crash may
      bring any of those back. Where a key's files are is up to `shards`. */
  datatype Disk = Disk(
    mode: Fsync,
    freshNames: bool,
    shards: Shards,
    inodes: seq<Inode>,
    dir: map<Path, nat>,
    dirs: set<Dir>,
    unstable: set<Path>,
    loose: set<Dir>,
    past: set<Link>,
    writers: map<nat, Writer>,
    usedNames: set<nat>,
    log: seq<Event>)

  datatype Step =
    | Begin(w: nat, name: nat, src: Str, dest: Path)  // CreateTemp
    | Stream(w: nat, n: nat)                          // one write of the copy loop
    | Finish(w: nat)                                  // end of source: sync unless Fast, close
    | Rename(w: nat)                                  // commit, or fail when the temp file is gone
    | GiveUp(w: nat)                                  // any error before the rename: clean up
    | Promote(upload: Str, number: nat, ref: Ref)     // PromoteMultipartPart
    | Delete(ref: Ref)                                // DeleteObject
    | RemovePart(upload: Str, number: nat)            // abort, or Recover on a stale upload
    | RecoverTemp(name: nat)                          // Recover on a temp entry
    | MkDir(at: Dir)                                  // one directory of MkdirAll
    | RmDir(at: Dir)                                  // one of cleanupObjectDirs or RemoveAll
    | SyncDir(at: Dir)                                // syncParentDir, or the system on its own
    | Crash(kept: seq<nat>, dirs: set<Dir>, dir: map<Path, nat>)
                                                      // all calls vanish, what was not synced may go

  type Shards = (Str, Str) -> Dir

  /** An empty root directory. */
  function New(mode: Fsync, freshNames: bool, shards: Shards): Disk {
    Disk(mode, freshNames, shards, [], map[], {}, {}, {}, {}, map[], {}, [])
  }

  function DirOf(shards: Shards, p: Path): Dir {
    match p
    case Temp(_) => [TMP]
    case Part(upload, _) => [MULTIPART, upload]
    case Object(ref) => [OBJECTS] + shards(ref.bucket, ref.key)
  }

  function Parent(q: Dir): Dir
    requires q != []
  {
    q[..|q| - 1]
  }

  predicate HasDir(dirs: set<Dir>, q: Dir) {
    q == [] || q in dirs
  }

  /** The entries of the directory and of all above it are synced. */
  ghost predicate Anchored(d: Disk, q: Dir) {
    forall k :: 0 < k <= |q| ==> q[..k] in d.dirs && q[..k] !in d.loose
  }

  /** The file's own entry is synced, and so are those of the directories above it. */
  ghost predicate Firm(d: Disk, p: Path) {
    p !in d.unstable && Anchored(d, DirOf(d.shards, p))
  }

  /** The path refers to the inode, or did and may again after a crash. */
  predicate Linked(d: Disk, p: Path, i: nat) {
    (p in d.dir && d.dir[p] == i) || Link(p, i) in d.past
  }

  /** The directories a crash can leave: those synced down from the root, and others that are
      there or were. */
  ghost predicate RecoverableDirs(d: Disk, dirs: set<Dir>) {
    && (forall q :: q in dirs ==> q != [] && HasDir(dirs, Parent(q)) && (q in d.dirs || q in d.loose))
    && (forall q :: q in d.dirs && Anchored(d, q) ==> q in dirs)
  }

  /** The files a crash can leave in these directories: those that are firm as they are, others
      as they read now or once did, or gone. */
  ghost predicate Recoverable(d: Disk, dirs: set<Dir>, dir: map<Path, nat>) {
    && (forall p :: p in d.dir && Firm(d, p) ==> p in dir && dir[p] == d.dir[p])
    && (forall p :: p in dir && Firm(d, p) ==> p in d.dir)
    && (forall p :: p in dir ==> Linked(d, p, dir[p]) && HasDir(dirs, DirOf(d.shards, p)))
  }

  function OldLink(d: Disk, p: Path): set<Link> {
    if p in d.dir then {Link(p, d.dir[p])} else {}
  }

  function SetEntry(d: Disk, p: Path, i: nat): Disk {
    d.(dir := d.dir[p := i], unstable := d.unstable + {p}, past := d.past + OldLink(d, p))
  }

  function DropEntry(d: Disk, p: Path): Disk {
    d.(dir := d.dir - {p}, unstable := d.unstable + {p}, past := d.past + OldLink(d, p))
  }

  /** CreateTemp opens exclusively; fresh names are, beyond that, never used twice. */
  ghost predicate Enabled(d: Disk, s: Step) {
    match s
    case Begin(w, name, src, dest) =>
      && w !in d.writers && !dest.Temp? && Temp(name) !in d.dir && [TMP] in d.dirs
      && (d.freshNames ==> name !in d.usedNames)
    case Stream(w, n) => w in d.writers && !d.writers[w].closed && n <= |d.writers[w].src| - d.writers[w].written
    case Finish(w) => w in d.writers && !d.writers[w].closed && d.writers[w].written == |d.writers[w].src|
    case Rename(w) => w in d.writers && d.writers[w].closed
    case GiveUp(w) => w in d.writers
    case MkDir(q) => q != [] && q !in d.dirs && HasDir(d.dirs, Parent(q))
    case RmDir(q) => q in d.dirs && |q| > 1 && IsEmpty(d, q)
    case Crash(kept, dirs, dir) =>
      && |kept| == |d.inodes| && RecoverableDirs(d, dirs) && Recoverable(d, dirs, dir)
      && forall i :: 0 <= i < |kept| ==> d.inodes[i].durable <= kept[i] <= |d.inodes[i].content|
    case _ => true
  }

  /** No file and no directory is in this one. */
  ghost predicate IsEmpty(d: Disk, q: Dir) {
    && (forall p :: p in d.dir ==> DirOf(d.shards, p) != q)
    && (forall r :: r in d.dirs && r != [] ==> Parent(r) != q)
  }

  /** The file is there to be renamed, and the directory to rename it to. */
  predicate CanMove(d: Disk, from: Path, to: Path) {
    from in d.dir && HasDir(d.dirs, DirOf(d.shards, to))
  }

  /** Files are in directories that exist, and those in others; writers and links refer to
      inodes that exist. */
  ghost predicate Wf(d: Disk) {
    && TreeOk(d)
    && (forall p, i: nat :: Linked(d, p, i) ==> i < |d.inodes|)
    && (forall w :: w in d.writers ==> d.writers[w].inode < |d.inodes| && d.writers[w].written <= |d.writers[w].src|)
    && (forall i :: 0 <= i < |d.inodes| ==> d.inodes[i].durable <= |d.inodes[i].content|)
  }

  ghost predicate TreeOk(d: Disk) {
    && (forall q :: q in d.dirs ==> q != [] && HasDir(d.dirs, Parent(q)))
    && (forall p :: p in d.dir ==> HasDir(d.dirs, DirOf(d.shards, p)))
  }

  ghost function Apply(d: Disk, s: Step): Disk
    requires Wf(d) && Enabled(d, s)
  {
    match s
    case Begin(w, name, src, dest) =>
      SetEntry(d, Temp(name), |d.inodes|).(
        inodes := d.inodes + [Inode([], 0)],
        writers := d.writers[w := Writer(name, |d.inodes|, src, 0, false, dest)],
        usedNames := d.usedNames + {name})
    case Stream(w, n) =>
      var x := d.writers[w];
      var node := d.inodes[x.inode];
      d.(inodes := d.inodes[x.inode := node.(content := node.content + x.src[x.written..x.written + n])],
         writers := d.writers[w := x.(written := x.written + n)])
    case Finish(w) =>
      var x := d.writers[w];
      var node := d.inodes[x.inode];
      d.(inodes := if d.mode.Fast? then d.inodes else d.inodes[x.inode := node.(durable := |node.content|)],
         writers := d.writers[w := x.(closed := true)])
    case Rename(w) =>
      var x := d.writers[w];
      if CanMove(d, Temp(x.temp), x.dest) then
        SetEntry(DropEntry(d, Temp(x.temp)), x.dest, d.dir[Temp(x.temp)]).(
          writers := d.writers - {w}, log := d.log + [Committed(x.dest, x.src)])
      else DropEntry(d, Temp(x.temp)).(writers := d.writers - {w})
    case GiveUp(w) => DropEntry(d, Temp(d.writers[w].temp)).(writers := d.writers - {w})
    case Promote(u, n, ref) =>
      if CanMove(d, Part(u, n), Object(ref)) then
        SetEntry(DropEntry(d, Part(u, n)), Object(ref), d.dir[Part(u, n)]).(log := d.log + [Promoted(u, n, ref)])
      else d
    case Delete(ref) => DropEntry(d, Object(ref))
    case RemovePart(u, n) => DropEntry(d, Part(u, n))
    case RecoverTemp(name) => DropEntry(d, Temp(name))
    case MkDir(q) => d.(dirs := d.dirs + {q}, loose := d.loose + {q})
    case RmDir(q) => d.(dirs := d.dirs - {q}, loose := d.loose + {q})
    case SyncDir(q) =>
      d.(unstable := (set p | p in d.unstable && DirOf(d.shards, p) != q),
         loose := (set r | r in d.loose && (r == [] || Parent(r) != q)))
    case Crash(kept, dirs, dir) =>
      d.(inodes := Truncated(d.inodes, kept), dirs := dirs, dir := dir, unstable := {}, loose := {}, past := {},
         writers := map[])
  }

  function Truncated(inodes: seq<Inode>, kept: seq<nat>): seq<Inode>
    requires |kept| == |inodes| && forall i :: 0 <= i < |kept| ==> kept[i] <= |inodes[i].content|
  {
    seq(|inodes|, i requires 0 <= i < |inodes| => Inode(inodes[i].content[..kept[i]], inodes[i].durable))
  }

  // ---- The invariant

  /** The bytes of an inode are the whole stream of a write that reached its rename to this
      very path, or of a part that was promoted to it. */
  ghost predicate HoldsAt(d: Disk, p: Path, i: nat)
    requires i < |d.inodes|
  {
    var content := d.inodes[i].content;
    || Committed(p, content) in d.log
    || (p.Object? && exists u, n :: Promoted(u, n, p.ref) in d.log && Committed(Part(u, n), content) in d.log)
  }

  ghost predicate HoldsWholeWrite(d: Disk, p: Path)
    requires Wf(d) && p in d.dir
  {
    assert Linked(d, p, d.dir[p]);
    HoldsAt(d, p, d.dir[p])
  }

  /** No call in flight writes to this inode, and a crash keeps all of it. */
  ghost predicate Sealed(d: Disk, i: nat)
    requires Wf(d)
  {
    && i < |d.inodes|
    && (forall w :: w in d.writers ==> d.writers[w].inode != i)
    && (!d.mode.Fast? ==> d.inodes[i].durable == |d.inodes[i].content|)
  }

  ghost predicate WriterOk(d: Disk, w: nat)
    requires Wf(d) && w in d.writers
  {
    var x := d.writers[w];
    && !x.dest.Temp? && x.temp in d.usedNames
    && d.inodes[x.inode].content == x.src[..x.written]
    && (Temp(x.temp) in d.dir ==> d.dir[Temp(x.temp)] == x.inode)
    && (x.closed ==> x.written == |x.src| && (!d.mode.Fast? ==> d.inodes[x.inode].durable == |x.src|))
  }

  ghost predicate Apart(d: Disk) {
    forall w, v :: w in d.writers && v in d.writers && w != v ==>
      d.writers[w].inode != d.writers[v].inode && d.writers[w].temp != d.writers[v].temp
  }

  /** Every committed link, present or past, is to a sealed inode with a whole write. */
  ghost predicate LinkOk(d: Disk, p: Path, i: nat)
    requires Wf(d)
  {
    if p.Temp? then p.name in d.usedNames else Sealed(d, i) && HoldsAt(d, p, i)
  }

  ghost predicate Inv(d: Disk) {
    && Wf(d)
    && (forall w :: w in d.writers ==> WriterOk(d, w))
    && Apart(d)
    && (forall p, i: nat :: Linked(d, p, i) ==> LinkOk(d, p, i))
  }

  ghost predicate Allowed(d: Disk, s: Step) {
    Enabled(d, s) && (s.Crash? ==> !d.mode.Fast?)
  }

  lemma LogGrows(d: Disk, d': Disk, p: Path, i: nat)
    requires i < |d.inodes| && i < |d'.inodes| && d.log <= d'.log
    requires d'.inodes[i].content == d.inodes[i].content && HoldsAt(d, p, i)
    ensures HoldsAt(d', p, i)
  {
    var content := d.inodes[i].content;
    assert forall e :: e in d.log ==> e in d'.log;
    if Committed(p, content) !in d.log {
      var u, n :| Promoted(u, n, p.ref) in d.log && Committed(Part(u, n), content) in d.log;
      assert Promoted(u, n, p.ref) in d'.log && Committed(Part(u, n), content) in d'.log;
    }
  }

  /** A file that was open when its path was overwritten or deleted still reads the same
      bytes: the inode behind a committed path is never written again, and a crash keeps it. */
  lemma SealedStays(d: Disk, s: Step, i: nat)
    requires Inv(d) && Allowed(d, s) && Sealed(d, i)
    ensures var d' := Apply(d, s);
            i < |d'.inodes| && d'.inodes[i] == d.inodes[i]
            && (forall w :: w in d'.writers ==> d'.writers[w].inode != i)
  {
    hide HoldsAt, Linked, WriterOk, Apart, Recoverable, RecoverableDirs, TreeOk;
    if s.Crash? {
      assert d.inodes[i].content[..s.kept[i]] == d.inodes[i].content;
    }
  }

  // What each step does to the links

  lemma DropLinks(d: Disk, p: Path, q: Path, i: nat)
    ensures Linked(DropEntry(d, p), q, i) <==> Linked(d, q, i)
  {
  }

  lemma SetLinks(d: Disk, p: Path, j: nat, q: Path, i: nat)
    ensures Linked(SetEntry(d, p, j), q, i) <==> Linked(d, q, i) || (q == p && i == j)
  {
  }

  /** The one link a step can add. */
  function NewLink(d: Disk, s: Step): Option<Link>
    requires s.Rename? ==> s.w in d.writers
  {
    match s
    case Begin(_, name, _, _) => Some(Link(Temp(name), |d.inodes|))
    case Rename(w) =>
      var t := Temp(d.writers[w].temp);
      if CanMove(d, t, d.writers[w].dest) then Some(Link(d.writers[w].dest, d.dir[t])) else None
    case Promote(u, n, ref) =>
      if CanMove(d, Part(u, n), Object(ref)) then Some(Link(Object(ref), d.dir[Part(u, n)])) else None
    case _ => None
  }

  lemma LinksOf(d: Disk, s: Step, p: Path, i: nat)
    requires Wf(d) && Enabled(d, s) && Linked(Apply(d, s), p, i)
    ensures Linked(d, p, i) || NewLink(d, s) == Some(Link(p, i))
  {
    hide Wf;
    match s
    case Begin(_, name, _, _) => SetLinks(d, Temp(name), |d.inodes|, p, i);
    case Rename(w) =>
      var t := Temp(d.writers[w].temp);
      DropLinks(d, t, p, i);
      if CanMove(d, t, d.writers[w].dest) {
        SetLinks(DropEntry(d, t), d.writers[w].dest, d.dir[t], p, i);
      }
    case GiveUp(w) => DropLinks(d, Temp(d.writers[w].temp), p, i);
    case Promote(u, n, ref) =>
      if CanMove(d, Part(u, n), Object(ref)) {
        SetLinks(DropEntry(d, Part(u, n)), Object(ref), d.dir[Part(u, n)], p, i);
        DropLinks(d, Part(u, n), p, i);
      }
    case Delete(ref) => DropLinks(d, Object(ref), p, i);
    case RemovePart(u, n) => DropLinks(d, Part(u, n), p, i);
    case RecoverTemp(name) => DropLinks(d, Temp(name), p, i);
    case _ =>
  }

  // What each step keeps

  lemma StepKeepsWf(d: Disk, s: Step)
    requires Wf(d) && Enabled(d, s)
    ensures Wf(Apply(d, s)) && |d.inodes| <= |Apply(d, s).inodes|
  {
    hide Linked, SetEntry, DropEntry, Recoverable, RecoverableDirs;
    var d' := Apply(d, s);
    assert TreeOk(d') by { TreeStays(d, s); }
    assert |d.inodes| <= |d'.inodes| by { InodesGrow(d, s); }
    forall p, i: nat | Linked(d', p, i)
      ensures i < |d'.inodes|
    {
      LinksOf(d, s, p, i);
      NewLinkExists(d, s);
    }
    WritersStayWf(d, s);
  }

  /** Directories are only removed when they are empty. */
  lemma TreeStays(d: Disk, s: Step)
    requires Wf(d) && Enabled(d, s)
    ensures TreeOk(Apply(d, s))
  {
    hide Linked, Anchored, Firm;
    if s.RmDir? {
      RmDirTree(d, s.at);
    }
  }

  lemma RmDirTree(d: Disk, q: Dir)
    requires TreeOk(d) && q in d.dirs && IsEmpty(d, q)
    ensures TreeOk(d.(dirs := d.dirs - {q}, loose := d.loose + {q}))
  {
  }

  lemma InodesGrow(d: Disk, s: Step)
    requires Wf(d) && Enabled(d, s)
    ensures |d.inodes| + (if s.Begin? then 1 else 0) == |Apply(d, s).inodes|
  {
    hide Linked, Recoverable, RecoverableDirs, TreeOk;
  }

  lemma NewLinkExists(d: Disk, s: Step)
    requires Wf(d) && Enabled(d, s)
    ensures NewLink(d, s).Some? ==> NewLink(d, s).value.inode < |d.inodes| + (if s.Begin? then 1 else 0)
  {
    hide Recoverable, RecoverableDirs, TreeOk;
    if s.Rename? && Temp(d.writers[s.w].temp) in d.dir {
      assert Linked(d, Temp(d.writers[s.w].temp), d.dir[Temp(d.writers[s.w].temp)]);
    }
    if s.Promote? && Part(s.upload, s.number) in d.dir {
      assert Linked(d, Part(s.upload, s.number), d.dir[Part(s.upload, s.number)]);
    }
  }

  lemma WritersStayWf(d: Disk, s: Step)
    requires Wf(d) && Enabled(d, s)
    ensures var d' := Apply(d, s);
            && (forall w :: w in d'.writers ==>
                  d'.writers[w].inode < |d'.inodes| && d'.writers[w].written <= |d'.writers[w].src|)
            && (forall i :: 0 <= i < |d'.inodes| ==> d'.inodes[i].durable <= |d'.inodes[i].content|)
  {
    hide Linked, Recoverable, RecoverableDirs, TreeOk;
  }

  /** Calls keep their inode and temp name; a new one gets an inode of its own. */
  lemma WriterBefore(d: Disk, s: Step, w: nat)
    requires Wf(d) && Enabled(d, s) && w in Apply(d, s).writers
    ensures var x := Apply(d, s).writers[w];
            if s.Begin? && s.w == w then x.inode == |d.inodes| && x.temp == s.name
            else w in d.writers && x.inode == d.writers[w].inode && x.temp == d.writers[w].temp
  {
    hide Wf, Linked, Recoverable, RecoverableDirs, Truncated, IsEmpty;
  }

  lemma ApartStays(d: Disk, s: Step)
    requires Inv(d) && Allowed(d, s) && d.freshNames
    ensures Apart(Apply(d, s))
  {
    hide HoldsAt, LinkOk, Linked, Recoverable, RecoverableDirs, TreeOk, Apply;
    var d' := Apply(d, s);
    forall w | w in d'.writers { WriterBefore(d, s, w); }
    assert forall w | w in d.writers :: WriterOk(d, w);
  }

  lemma BeginKeepsWriter(d: Disk, s: Step, v: nat)
    requires Inv(d) && Allowed(d, s) && s.Begin? && d.freshNames && v in Apply(d, s).writers
    requires Wf(Apply(d, s))
    ensures WriterOk(Apply(d, s), v)
  {
    hide HoldsAt, LinkOk, Linked, Apart, TreeOk;
    assert v != s.w ==> WriterOk(d, v);
  }

  lemma StreamKeepsWriter(d: Disk, w: nat, n: nat, v: nat)
    requires Inv(d) && Enabled(d, Stream(w, n)) && v in d.writers && Wf(Apply(d, Stream(w, n)))
    ensures WriterOk(Apply(d, Stream(w, n)), v)
  {
    hide HoldsAt, LinkOk, Linked, TreeOk;
    assert WriterOk(d, v) && WriterOk(d, w);
    var x := d.writers[w];
    assert x.src[..x.written] + x.src[x.written..x.written + n] == x.src[..x.written + n];
  }

  lemma FinishKeepsWriter(d: Disk, w: nat, v: nat)
    requires Inv(d) && Enabled(d, Finish(w)) && v in d.writers && Wf(Apply(d, Finish(w)))
    ensures WriterOk(Apply(d, Finish(w)), v)
  {
    hide HoldsAt, LinkOk, Linked, TreeOk;
    assert WriterOk(d, v) && WriterOk(d, w);
  }

  /** A step that touches no inode leaves the other calls as they are. */
  lemma OtherKeepsWriter(d: Disk, s: Step, v: nat)
    requires Inv(d) && Allowed(d, s) && !s.Begin? && !s.Stream? && !s.Finish? && v in Apply(d, s).writers
    requires Wf(Apply(d, s))
    ensures WriterOk(Apply(d, s), v)
  {
    hide HoldsAt, LinkOk, Linked, Recoverable, RecoverableDirs, TreeOk, Truncated, Apart;
    assert WriterOk(d, v);
  }

  lemma StepKeepsWriter(d: Disk, s: Step, v: nat)
    requires Inv(d) && Allowed(d, s) && d.freshNames && v in Apply(d, s).writers && Wf(Apply(d, s))
    ensures WriterOk(Apply(d, s), v)
  {
    hide WriterOk, HoldsAt, LinkOk, Linked, Apart, Wf;
    match s
    case Begin(_, _, _, _) => BeginKeepsWriter(d, s, v);
    case Stream(w, n) => StreamKeepsWriter(d, w, n, v);
    case Finish(w) => FinishKeepsWriter(d, w, v);
    case _ => OtherKeepsWriter(d, s, v);
  }

  lemma NamesStay(d: Disk, s: Step)
    requires Wf(d) && Enabled(d, s)
    ensures d.usedNames <= Apply(d, s).usedNames && d.log <= Apply(d, s).log && Apply(d, s).mode == d.mode
    ensures Apply(d, s).freshNames == d.freshNames
  {
    hide Wf, Linked, Recoverable, RecoverableDirs;
  }

  lemma OldLinkStays(d: Disk, s: Step, p: Path, i: nat)
    requires Inv(d) && Allowed(d, s) && Linked(d, p, i) && Wf(Apply(d, s))
    ensures LinkOk(Apply(d, s), p, i)
  {
    hide HoldsAt, WriterOk, Apart, Linked, Apply;
    NamesStay(d, s);
    assert LinkOk(d, p, i);
    if !p.Temp? {
      SealedStays(d, s, i);
      LogGrows(d, Apply(d, s), p, i);
    }
  }

  /** A closed writer's temp file holds its whole source; the rename publishes it. */
  lemma RenamedIsOk(d: Disk, w: nat)
    requires Inv(d) && Enabled(d, Rename(w)) && CanMove(d, Temp(d.writers[w].temp), d.writers[w].dest)
    requires Wf(Apply(d, Rename(w)))
    ensures LinkOk(Apply(d, Rename(w)), d.writers[w].dest, d.dir[Temp(d.writers[w].temp)])
  {
    hide Linked;
    var x := d.writers[w];
    assert WriterOk(d, w);
    assert x.src[..x.written] == x.src;
    assert Committed(x.dest, x.src) in Apply(d, Rename(w)).log;
  }

  lemma PromotedIsOk(d: Disk, u: Str, n: nat, ref: Ref)
    requires Inv(d) && CanMove(d, Part(u, n), Object(ref)) && Wf(Apply(d, Promote(u, n, ref)))
    ensures LinkOk(Apply(d, Promote(u, n, ref)), Object(ref), d.dir[Part(u, n)])
  {
    hide WriterOk, Apart;
    var d', i := Apply(d, Promote(u, n, ref)), d.dir[Part(u, n)];
    assert Linked(d, Part(u, n), i);
    assert LinkOk(d, Part(u, n), i);
    var content := d.inodes[i].content;
    assert Committed(Part(u, n), content) in d.log;
    assert Promoted(u, n, ref) in d'.log && Committed(Part(u, n), content) in d'.log;
  }

  lemma NewLinkIsOk(d: Disk, s: Step)
    requires Inv(d) && Allowed(d, s) && Wf(Apply(d, s)) && NewLink(d, s).Some?
    ensures LinkOk(Apply(d, s), NewLink(d, s).value.path, NewLink(d, s).value.inode)
  {
    hide HoldsAt, Linked, WriterOk, Apart, Sealed, Wf;
    match s
    case Begin(_, _, _, _) =>
    case Rename(w) => RenamedIsOk(d, w);
    case Promote(u, n, ref) => PromotedIsOk(d, u, n, ref);
  }

  lemma StepKeepsInv(d: Disk, s: Step)
    requires Inv(d) && Allowed(d, s) && d.freshNames
    ensures Inv(Apply(d, s))
  {
    hide Apply, Wf, LinkOk, WriterOk, Apart, Linked, NewLink;
    var d' := Apply(d, s);
    StepKeepsWf(d, s);
    ApartStays(d, s);
    forall w | w in d'.writers
      ensures WriterOk(d', w)
    {
      StepKeepsWriter(d, s, w);
    }
    forall p, i: nat | Linked(d', p, i)
      ensures LinkOk(d', p, i)
    {
      LinksOf(d, s, p, i);
      if Linked(d, p, i) { OldLinkStays(d, s, p, i); } else { NewLinkIsOk(d, s); }
    }
  }

  // ---- Runs

  ghost predicate Runs(d: Disk, steps: seq<Step>)
    decreases |steps|
  {
    steps == [] || (Wf(d) && Enabled(d, steps[0]) && Runs(Apply(d, steps[0]), steps[1..]))
  }

  ghost function After(d: Disk, steps: seq<Step>): Disk
    requires Runs(d, steps)
    decreases |steps|
  {
    if steps == [] then d else After(Apply(d, steps[0]), steps[1..])
  }

  /** A run loses no synced data: either files are synced before they are renamed, or
      nothing crashes. */
  ghost predicate NoLoss(mode: Fsync, steps: seq<Step>) {
    mode.Fast? ==> forall s :: s in steps ==> !s.Crash?
  }

  lemma {:induction false} RunKeepsInv(d: Disk, steps: seq<Step>)
    requires Inv(d) && d.freshNames && Runs(d, steps) && NoLoss(d.mode, steps)
    ensures Inv(After(d, steps))
    decreases |steps|
  {
    if steps != [] {
      StepKeepsInv(d, steps[0]);
      assert forall s :: s in steps[1..] ==> s in steps;
      RunKeepsInv(Apply(d, steps[0]), steps[1..]);
    }
  }

  /** In every interleaving a committed path holds the complete stream of one write that
      reached its rename, never a partial one, even where a crash brings back an older entry. */
  lemma CommittedIsWhole(mode: Fsync, shards: Shards, steps: seq<Step>, p: Path)
    requires Runs(New(mode, true, shards), steps) && NoLoss(mode, steps)
    ensures var d := After(New(mode, true, shards), steps);
            Wf(d) && (p in d.dir && !p.Temp? ==> HoldsWholeWrite(d, p))
  {
    hide HoldsAt, WriterOk, Apart, Runs, After;
    RunKeepsInv(New(mode, true, shards), steps);
    var d := After(New(mode, true, shards), steps);
    if p in d.dir { assert Linked(d, p, d.dir[p]); }
  }

  // ---- What can change a committed path

  /** The steps of others' making that are about this very path: a delete of it, a rename or a
      promotion onto it, and for a staged part its removal or promotion. */
  predicate Own(d: Disk, s: Step, p: Path) {
    match s
    case Rename(w) => w in d.writers && d.writers[w].dest == p
    case Promote(u, n, ref) => Object(ref) == p || Part(u, n) == p
    case Delete(ref) => Object(ref) == p
    case RemovePart(u, n) => Part(u, n) == p
    case _ => false
  }

  /** Every other step leaves a committed path alone: Recover, writes in flight, removals of
      directories, and, once its entry and those of the directories above it are synced,
      crashes. */
  lemma OnlyOwnStepsChange(d: Disk, s: Step, p: Path)
    requires Inv(d) && Allowed(d, s) && p in d.dir && !p.Temp? && !Own(d, s, p)
    requires s.Crash? ==> Firm(d, p)
    ensures var d' := Apply(d, s);
            && p in d'.dir && d'.dir[p] == d.dir[p] && d.dir[p] < |d.inodes| && d.dir[p] < |d'.inodes|
            && d'.inodes[d.dir[p]] == d.inodes[d.dir[p]]
            && (Firm(d, p) ==> Firm(d', p))
  {
    hide HoldsAt, WriterOk, Apart, Firm, TreeOk, RecoverableDirs, IsEmpty;
    assert Linked(d, p, d.dir[p]);
    assert LinkOk(d, p, d.dir[p]);
    SealedStays(d, s, d.dir[p]);
    if Firm(d, p) { FirmStays(d, s, p); }
  }

  lemma AnchoredAbove(d: Disk, q: Dir, k: nat)
    requires Anchored(d, q) && k <= |q|
    ensures Anchored(d, q[..k])
  {
    assert forall j | 0 < j <= k :: q[..k][..j] == q[..j];
  }

  /** A directory with a file in it or below it is not empty. */
  lemma NotEmptyAbove(d: Disk, p: Path, k: nat)
    requires p in d.dir && Anchored(d, DirOf(d.shards, p)) && 0 < k <= |DirOf(d.shards, p)|
    ensures !IsEmpty(d, DirOf(d.shards, p)[..k])
  {
    var q := DirOf(d.shards, p);
    if k == |q| {
      assert q[..k] == q;
    } else {
      assert q[..k + 1] in d.dirs && Parent(q[..k + 1]) == q[..k];
    }
  }

  lemma FirmStays(d: Disk, s: Step, p: Path)
    requires Wf(d) && Enabled(d, s) && p in d.dir && !p.Temp? && Firm(d, p) && !Own(d, s, p)
    ensures Firm(Apply(d, s), p)
  {
    hide Linked, TreeOk, Recoverable, IsEmpty, Anchored;
    var d', q := Apply(d, s), DirOf(d.shards, p);
    assert Anchored(d', q) by { AnchoredStays(d, s, p); }
  }

  lemma AnchoredStays(d: Disk, s: Step, p: Path)
    requires Wf(d) && Enabled(d, s) && p in d.dir && Anchored(d, DirOf(d.shards, p))
    ensures Anchored(Apply(d, s), DirOf(d.shards, p))
  {
    hide Wf, Linked, Recoverable, IsEmpty, Truncated, DirOf;
    var d', q := Apply(d, s), DirOf(d.shards, p);
    forall k | 0 < k <= |q|
      ensures q[..k] in d'.dirs && q[..k] !in d'.loose
    {
      assert q[..k] in d.dirs && q[..k] !in d.loose;
      AnchoredAbove(d, q, k);
      NotEmptyAbove(d, p, k);
    }
  }

  ghost predicate Untouched(d: Disk, steps: seq<Step>, p: Path)
    requires Runs(d, steps)
    decreases |steps|
  {
    steps == [] || (!Own(d, steps[0], p) && Untouched(Apply(d, steps[0]), steps[1..], p))
  }

  predicate Crashes(steps: seq<Step>) {
    exists s :: s in steps && s.Crash?
  }

  /** Over every run with no step of its own, a committed path keeps its file and the file its
      bytes, if it is firm or nothing crashes. */
  lemma {:induction false} UntouchedStays(d: Disk, steps: seq<Step>, p: Path)
    requires Inv(d) && d.freshNames && Runs(d, steps) && NoLoss(d.mode, steps)
    requires p in d.dir && !p.Temp? && Untouched(d, steps, p) && (Firm(d, p) || !Crashes(steps))
    ensures var d' := After(d, steps);
            && p in d'.dir && d'.dir[p] == d.dir[p] && d.dir[p] < |d.inodes| && d.dir[p] < |d'.inodes|
            && d'.inodes[d.dir[p]] == d.inodes[d.dir[p]]
    decreases |steps|
  {
    hide Inv, Apply, Wf, Enabled, Own, Firm;
    if steps == [] {
      EntryExists(d, p);
    } else {
      var d' := Apply(d, steps[0]);
      assert steps[0] in steps && forall s :: s in steps[1..] ==> s in steps;
      NamesStay(d, steps[0]);
      OnlyOwnStepsChange(d, steps[0], p);
      StepKeepsInv(d, steps[0]);
      EntryExists(d, p);
      UntouchedStays(d', steps[1..], p);
    }
  }

  lemma EntryExists(d: Disk, p: Path)
    requires Inv(d) && p in d.dir
    ensures d.dir[p] < |d.inodes|
  {
    assert Linked(d, p, d.dir[p]);
  }

  /** Recover passes over temp entries and stale uploads, however many and mixed with any
      writes, remove and change no object that nobody deletes, overwrites or promotes onto. */
  lemma RecoverRemovesNoObject(d: Disk, steps: seq<Step>, ref: Ref)
    requires Inv(d) && d.freshNames && Runs(d, steps) && !Crashes(steps) && Object(ref) in d.dir
    requires Untouched(d, steps, Object(ref))
    ensures var d' := After(d, steps);
            && Wf(d) && Wf(d') && Object(ref) in d'.dir && d'.dir[Object(ref)] == d.dir[Object(ref)]
            && HoldsWholeWrite(d', Object(ref))
  {
    hide Runs, After, Untouched, Enabled, Apply, Firm, TreeOk;
    UntouchedStays(d, steps, Object(ref));
    RunKeepsInv(d, steps);
    var d' := After(d, steps);
    assert Linked(d', Object(ref), d'.dir[Object(ref)]);
    assert LinkOk(d', Object(ref), d'.dir[Object(ref)]);
  }

  // ---- What a removal comes to

  /** The steps that make something of a path: a rename or a promotion onto it. */
  predicate Makes(d: Disk, s: Step, p: Path) {
    match s
    case Begin(_, name, _, _) => Temp(name) == p
    case Rename(w) => w in d.writers && d.writers[w].dest == p
    case Promote(_, _, ref) => Object(ref) == p
    case _ => false
  }

  /** What deletes, aborts and Recover passes name is gone at once. */
  lemma RemovedIsGone(d: Disk, s: Step, p: Path)
    requires Wf(d) && Enabled(d, s)
    requires || (s.Delete? && p == Object(s.ref))
             || (s.RemovePart? && p == Part(s.upload, s.number)) || (s.RecoverTemp? && p == Temp(s.name))
             || (s.GiveUp? && p == Temp(d.writers[s.w].temp))
    ensures p !in Apply(d, s).dir && Apply(d, s).dir == d.dir - {p}
  {
    hide Wf;
  }

  /** A path nothing is made of stays gone over any run, if each crash comes when it is firm. */
  ghost predicate StaysUnmade(d: Disk, steps: seq<Step>, p: Path)
    requires Runs(d, steps)
    decreases |steps|
  {
    steps == [] ||
    (!Makes(d, steps[0], p) && (steps[0].Crash? ==> Firm(d, p)) && StaysUnmade(Apply(d, steps[0]), steps[1..], p))
  }

  lemma {:induction false} GoneStaysGone(d: Disk, steps: seq<Step>, p: Path)
    requires Runs(d, steps) && p !in d.dir && StaysUnmade(d, steps, p)
    ensures p !in After(d, steps).dir
    decreases |steps|
  {
    if steps != [] {
      StepLeavesGone(d, steps[0], p);
      GoneStaysGone(Apply(d, steps[0]), steps[1..], p);
    }
  }

  lemma StepLeavesGone(d: Disk, s: Step, p: Path)
    requires Wf(d) && Enabled(d, s) && p !in d.dir && !Makes(d, s, p) && (s.Crash? ==> Firm(d, p))
    ensures p !in Apply(d, s).dir
  {
    hide Wf, Firm, RecoverableDirs, IsEmpty, Linked;
  }

  /** A deleted object is not there until something is renamed or promoted onto it, or a crash comes
      before its entry and those of the directories above it are synced. */
  lemma DeletedStaysGone(d: Disk, ref: Ref, steps: seq<Step>)
    requires Wf(d) && Runs(Apply(d, Delete(ref)), steps) && StaysUnmade(Apply(d, Delete(ref)), steps, Object(ref))
    ensures Object(ref) !in After(Apply(d, Delete(ref)), steps).dir
  {
    hide Wf, Runs, After, StaysUnmade, Apply;
    assert Enabled(d, Delete(ref));
    RemovedIsGone(d, Delete(ref), Object(ref));
    GoneStaysGone(Apply(d, Delete(ref)), steps, Object(ref));
  }

  /** What a crash can bring back. */
  ghost predicate CanReturn(d: Disk, p: Path) {
    exists s: Step :: s.Crash? && Enabled(d, s) && p in s.dir
  }

  /** All directories on the way to q are there, or were and may be again. */
  predicate MayReach(d: Disk, q: Dir) {
    forall k :: 0 < k <= |q| ==> q[..k] in d.dirs || q[..k] in d.loose
  }

  /** A path that is gone can be back after a crash if and only if it is not firm, had a file before
      that was not synced away, and its directories may be there. */
  lemma CanReturnIff(d: Disk, p: Path)
    requires Wf(d) && p !in d.dir
    ensures CanReturn(d, p) <==>
            !Firm(d, p) && (exists i: nat :: Link(p, i) in d.past) && MayReach(d, DirOf(d.shards, p))
  {
    if CanReturn(d, p) {
      var s: Step :| s.Crash? && Enabled(d, s) && p in s.dir;
      hide Wf, Firm, Anchored;
      assert Linked(d, p, s.dir[p]);
      assert Link(p, s.dir[p]) in d.past;
      ReachedAll(d, s.dirs, DirOf(d.shards, p));
    }
    if !Firm(d, p) && (exists i: nat :: Link(p, i) in d.past) && MayReach(d, DirOf(d.shards, p)) {
      var i: nat :| Link(p, i) in d.past;
      ReturningCrash(d, p, i);
    }
  }

  lemma {:induction false} ReachedAll(d: Disk, dirs: set<Dir>, q: Dir)
    requires RecoverableDirs(d, dirs) && HasDir(dirs, q)
    ensures MayReach(d, q)
    decreases |q|
  {
    hide Anchored;
    if q != [] {
      assert q[..|q|] == q;
      ReachedAll(d, dirs, Parent(q));
      forall k | 0 < k <= |q|
        ensures q[..k] in d.dirs || q[..k] in d.loose
      {
        if k < |q| { assert Parent(q)[..k] == q[..k]; }
      }
    }
  }

  /** The crash that leaves what is sure to be left, and that path. */
  lemma ReturningCrash(d: Disk, p: Path, i: nat)
    requires Wf(d) && !Firm(d, p) && Link(p, i) in d.past && MayReach(d, DirOf(d.shards, p))
    ensures CanReturn(d, p)
  {
    var q, worst := DirOf(d.shards, p), WorstCrash(d);
    WorstCrashEnabled(d);
    var s := Crash(worst.kept, worst.dirs + Chain(q), worst.dir[p := i]);
    hide Wf, Anchored, DirOf;
    forall r | r in s.dirs
      ensures r != [] && HasDir(s.dirs, Parent(r)) && (r in d.dirs || r in d.loose)
    {
      if r in Chain(q) { ChainUp(q, r); }
    }
    forall r | r in s.dir
      ensures Linked(d, r, s.dir[r]) && HasDir(s.dirs, DirOf(d.shards, r))
    {
      if r == p { ChainHas(q); }
    }
    assert Enabled(d, s);
  }

  lemma ChainUp(q: Dir, r: Dir)
    requires r in Chain(q)
    ensures r != [] && HasDir(Chain(q), Parent(r)) && exists k :: 0 < k <= |q| && r == q[..k]
  {
    var k :| 0 < k <= |q| && r == q[..k];
    assert Parent(r) == q[..k - 1];
  }

  lemma ChainHas(q: Dir)
    ensures HasDir(Chain(q), q)
  {
    assert q[..|q|] == q;
  }

  // ---- What survives crashes

  ghost predicate Holds(d: Disk, p: Path, content: Str) {
    p in d.dir && d.dir[p] < |d.inodes| && d.inodes[d.dir[p]].content == content
  }

  /** The path keeps these bytes over every run that has no step of its own, crashes included. */
  ghost predicate AlwaysHolds(d: Disk, p: Path, content: Str) {
    forall steps :: Runs(d, steps) && Untouched(d, steps, p) ==> Holds(After(d, steps), p, content)
  }

  /** The crash that leaves nothing but what is sure to be left. */
  ghost function WorstCrash(d: Disk): Step
    requires Wf(d)
  {
    Crash(seq(|d.inodes|, i requires 0 <= i < |d.inodes| => |d.inodes[i].content|),
          set q | q in d.dirs && Anchored(d, q), map p | p in d.dir && Firm(d, p) :: d.dir[p])
  }

  lemma WorstCrashEnabled(d: Disk)
    requires Wf(d)
    ensures Enabled(d, WorstCrash(d))
  {
    hide TreeOk, Anchored, DirOf;
    var crash := WorstCrash(d);
    forall q | q in crash.dirs
      ensures q != [] && HasDir(crash.dirs, Parent(q))
    {
      assert q != [] by { assert TreeOk(d); DirsNotEmpty(d, q); }
      AnchoredAbove(d, q, |q| - 1);
      AnchoredHasDir(d, Parent(q));
    }
    forall p | p in crash.dir
      ensures Linked(d, p, crash.dir[p]) && HasDir(crash.dirs, DirOf(d.shards, p))
    {
      AnchoredHasDir(d, DirOf(d.shards, p));
    }
  }

  lemma DirsNotEmpty(d: Disk, q: Dir)
    requires TreeOk(d) && q in d.dirs
    ensures q != []
  {
  }

  lemma AnchoredHasDir(d: Disk, q: Dir)
    requires Anchored(d, q)
    ensures HasDir(d.dirs, q)
  {
    if q != [] { assert q[..|q|] == q; }
  }

  /** A committed path survives every run that has no step of its own if and only if its entry
      and those of all directories above it are synced. */
  lemma HoldsIff(d: Disk, p: Path)
    requires Inv(d) && d.freshNames && !d.mode.Fast? && p in d.dir && !p.Temp?
    ensures d.dir[p] < |d.inodes| && (AlwaysHolds(d, p, d.inodes[d.dir[p]].content) <==> Firm(d, p))
  {
    hide Inv, Firm, Runs, After, Untouched;
    EntryExists(d, p);
    if Firm(d, p) {
      forall steps | Runs(d, steps) && Untouched(d, steps, p)
        ensures Holds(After(d, steps), p, d.inodes[d.dir[p]].content)
      {
        UntouchedStays(d, steps, p);
      }
    } else {
      NotFirmLost(d, p, d.inodes[d.dir[p]].content);
    }
  }

  lemma NotFirmLost(d: Disk, p: Path, content: Str)
    requires Inv(d) && p in d.dir && !Firm(d, p)
    ensures !AlwaysHolds(d, p, content)
  {
    hide Firm, Wf, WriterOk, LinkOk, Apart, Linked, Recoverable, RecoverableDirs;
    var crash := WorstCrash(d);
    WorstCrashEnabled(d);
    var d' := Apply(d, crash);
    assert p !in d'.dir;
    hide Apply, Enabled;
    NoSteps(d');
    RunsCons(d, crash, []);
    assert [crash] + [] == [crash] && [crash][1..] == [];
    assert Untouched(d', [], p);
    assert Untouched(d, [crash], p);
  }

  /** The step makes a path of a file: a rename of a whole temp file, or a promotion. */
  predicate Commits(d: Disk, s: Step) {
    || (s.Rename? && s.w in d.writers && d.writers[s.w].closed
        && CanMove(d, Temp(d.writers[s.w].temp), d.writers[s.w].dest))
    || (s.Promote? && CanMove(d, Part(s.upload, s.number), Object(s.ref)))
  }

  function SourceOf(d: Disk, s: Step): Path
    requires Commits(d, s)
  {
    if s.Rename? then Temp(d.writers[s.w].temp) else Part(s.upload, s.number)
  }

  function DestOf(d: Disk, s: Step): Path
    requires Commits(d, s)
  {
    if s.Rename? then d.writers[s.w].dest else Object(s.ref)
  }

  /** Such a step moves the file: it is at its new path, not at the old one any more, and no other
      path changed. */
  lemma CommitMoves(d: Disk, s: Step)
    requires Inv(d) && Commits(d, s)
    ensures Enabled(d, s)
    ensures var from, to, d' := SourceOf(d, s), DestOf(d, s), Apply(d, s);
            && from != to && d'.dir == (d.dir - {from})[to := d.dir[from]] && from !in d'.dir
            && d'.inodes == d.inodes
  {
    hide Apart, LinkOk, TreeOk, HoldsAt;
    if s.Rename? { assert WriterOk(d, s.w); }
  }

  /** The steps from there to the call's success: in mode Strict the file's directory is synced. */
  function Acknowledge(d: Disk, s: Step): seq<Step>
    requires Commits(d, s)
  {
    [s] + if d.mode.Strict? then [SyncDir(DirOf(d.shards, DestOf(d, s)))] else []
  }

  /** A write or promotion that was reported as done is there, whole, after every run that has
      no step of its path, crashes included, if and only if the mode is Strict and the entries of
      all directories above it were synced. */
  lemma AcknowledgedIff(d: Disk, s: Step)
    requires Inv(d) && d.freshNames && Commits(d, s)
    ensures d.dir[SourceOf(d, s)] < |d.inodes| && Runs(d, Acknowledge(d, s))
    ensures s.Rename? ==> d.inodes[d.dir[SourceOf(d, s)]].content == d.writers[s.w].src
    ensures var p, d' := DestOf(d, s), After(d, Acknowledge(d, s));
            AlwaysHolds(d', p, d.inodes[d.dir[SourceOf(d, s)]].content)
            <==> d.mode.Strict? && Anchored(d, DirOf(d.shards, p))
  {
    hide Inv, Firm, Apply, Enabled, Runs, After, AlwaysHolds, Anchored, DirOf;
    InvWf(d);
    Committing(d, s);
    StepKeepsInv(d, s);
    var p, d1, content := DestOf(d, s), Apply(d, s), d.inodes[d.dir[SourceOf(d, s)]].content;
    InvWf(d1);
    if d.mode.Strict? {
      var sync := SyncDir(DirOf(d.shards, p));
      Syncing(d1, p);
      StepKeepsInv(d1, sync);
      HoldsIff(Apply(d1, sync), p);
      TwoSteps(d, s, sync);
      assert Acknowledge(d, s) == [s, sync];
    } else {
      OneStep(d, s);
      NotFirmLost(d1, p, content);
      assert Acknowledge(d, s) == [s];
    }
  }

  lemma InvWf(d: Disk)
    requires Inv(d)
    ensures Wf(d)
  {
  }

  lemma Committing(d: Disk, s: Step)
    requires Inv(d) && Commits(d, s)
    ensures Allowed(d, s) && d.dir[SourceOf(d, s)] < |d.inodes|
    ensures var p, d' := DestOf(d, s), Apply(d, s);
            && !p.Temp? && p in d'.dir && d'.dir[p] == d.dir[SourceOf(d, s)] && d'.inodes == d.inodes
            && !Firm(d', p) && (Anchored(d', DirOf(d.shards, p)) <==> Anchored(d, DirOf(d.shards, p)))
            && d'.mode == d.mode && d'.shards == d.shards && d'.freshNames == d.freshNames
    ensures s.Rename? ==> d.inodes[d.dir[SourceOf(d, s)]].content == d.writers[s.w].src
  {
    hide Apart, LinkOk, TreeOk;
    EntryExists(d, SourceOf(d, s));
    if s.Rename? {
      var x := d.writers[s.w];
      assert WriterOk(d, s.w) && x.src[..x.written] == x.src;
    }
  }

  lemma Syncing(d: Disk, p: Path)
    requires Wf(d)
    ensures var q := DirOf(d.shards, p);
            var d' := Apply(d, SyncDir(q));
            && Enabled(d, SyncDir(q)) && d' == d.(unstable := d'.unstable, loose := d'.loose)
            && (Firm(d', p) <==> Anchored(d, q))
  {
    hide Wf;
    var q := DirOf(d.shards, p);
    forall k | 0 < k <= |q|
      ensures Parent(q[..k]) != q
    {
      assert |Parent(q[..k])| < |q|;
    }
  }

  lemma OneStep(d: Disk, s: Step)
    requires Wf(d) && Enabled(d, s)
    ensures Runs(d, [s]) && After(d, [s]) == Apply(d, s)
  {
    hide Apply, Wf, Enabled;
    NoSteps(Apply(d, s));
    RunsCons(d, s, []);
    assert [s] + [] == [s];
  }

  lemma TwoSteps(d: Disk, s: Step, t: Step)
    requires Wf(d) && Enabled(d, s) && Wf(Apply(d, s)) && Enabled(Apply(d, s), t)
    ensures Runs(d, [s, t]) && After(d, [s, t]) == Apply(Apply(d, s), t)
  {
    hide Apply, Wf, Enabled, Runs, After;
    OneStep(Apply(d, s), t);
    RunsCons(d, s, [t]);
    assert [s] + [t] == [s, t];
  }

  // ---- Runs step by step

  lemma NoSteps(d: Disk)
    ensures Runs(d, []) && After(d, []) == d
  {
  }

  lemma RunsCons(d: Disk, s: Step, rest: seq<Step>)
    requires Wf(d) && Enabled(d, s) && Runs(Apply(d, s), rest)
    ensures Runs(d, [s] + rest) && After(d, [s] + rest) == After(Apply(d, s), rest)
  {
    assert ([s] + rest)[1..] == rest;
  }

  lemma {:induction false} RunsConcat(d: Disk, a: seq<Step>, b: seq<Step>)
    requires Runs(d, a) && Runs(After(d, a), b)
    ensures Runs(d, a + b) && After(d, a + b) == After(After(d, a), b)
    decreases |a|
  {
    hide Apply, Wf, Enabled;
    if a == [] {
      assert a + b == b;
    } else {
      RunsConcat(Apply(d, a[0]), a[1..], b);
      assert (a + b)[1..] == a[1..] + b;
    }
  }

  // ---- Runs from an empty root

  /** The directories on the way to q, q included. */
  function Chain(q: Dir): set<Dir> {
    set k | 0 < k <= |q| :: q[..k]
  }

  /** MkdirAll where there is none of them. */
  function MakeSteps(q: Dir): seq<Step> {
    seq(|q|, i requires 0 <= i < |q| => MkDir(q[..i + 1]))
  }

  function WithDirs(d: Disk, dirs: set<Dir>): Disk {
    d.(dirs := d.dirs + dirs, loose := d.loose + dirs)
  }

  lemma {:induction false} MakeRun(d: Disk, q: Dir)
    requires Wf(d) && Chain(q) !! d.dirs
    ensures Runs(d, MakeSteps(q)) && After(d, MakeSteps(q)) == WithDirs(d, Chain(q)) && Wf(WithDirs(d, Chain(q)))
    decreases |q|
  {
    if q == [] {
      NoSteps(d);
      assert WithDirs(d, Chain(q)) == d;
    } else {
      var up := Parent(q);
      hide Wf, Runs, After, Apply, Enabled, Chain;
      ChainStep(q);
      MakeRun(d, up);
      var d1 := WithDirs(d, Chain(up));
      LastMade(d1, q);
      OneStep(d1, MkDir(q));
      RunsConcat(d, MakeSteps(up), [MkDir(q)]);
      assert MakeSteps(q) == MakeSteps(up) + [MkDir(q)] by { MakeStepsLast(q); }
    }
  }

  lemma ChainStep(q: Dir)
    requires q != []
    ensures Chain(q) == Chain(Parent(q)) + {q} && q !in Chain(Parent(q)) && HasDir(Chain(Parent(q)), Parent(q))
  {
    var up := Parent(q);
    assert q[..|q|] == q && up[..|up|] == up;
    assert forall k | 0 < k <= |up| :: up[..k] == q[..k];
    forall r | r in Chain(q)
      ensures r in Chain(up) + {q}
    {
      var k :| 0 < k <= |q| && r == q[..k];
      assert k <= |up| ==> r == up[..k];
    }
    forall r | r in Chain(up)
      ensures r in Chain(q) && r != q
    {
      var k :| 0 < k <= |up| && r == up[..k];
      assert r == q[..k];
    }
  }

  lemma MakeStepsLast(q: Dir)
    requires q != []
    ensures MakeSteps(q) == MakeSteps(Parent(q)) + [MkDir(q)]
  {
    var all, some := MakeSteps(q), MakeSteps(Parent(q)) + [MkDir(q)];
    forall i | 0 <= i < |q|
      ensures all[i] == some[i]
    {
      if i < |q| - 1 {
        assert Parent(q)[..i + 1] == q[..i + 1];
      } else {
        assert q[..i + 1] == q;
      }
    }
  }

  lemma LastMade(d: Disk, q: Dir)
    requires Wf(d) && q != [] && q !in d.dirs && HasDir(d.dirs, Parent(q))
    ensures Enabled(d, MkDir(q)) && Apply(d, MkDir(q)) == WithDirs(d, {q}) && Wf(WithDirs(d, {q}))
  {
    hide Linked;
    assert forall p, i: nat | Linked(WithDirs(d, {q}), p, i) :: Linked(d, p, i) by { SameLinks(d, {q}); }
  }

  lemma SameLinks(d: Disk, dirs: set<Dir>)
    ensures forall p, i: nat :: Linked(WithDirs(d, dirs), p, i) <==> Linked(d, p, i)
  {
  }

  /** The directories a first write to a path needs: for its temp file and for itself. */
  function Needed(shards: Shards, p: Path): set<Dir> {
    {[TMP]} + Chain(DirOf(shards, p))
  }

  function NeededSteps(shards: Shards, p: Path): seq<Step> {
    [MkDir([TMP])] + MakeSteps(DirOf(shards, p))
  }

  lemma NeededRun(mode: Fsync, freshNames: bool, shards: Shards, p: Path)
    requires !p.Temp?
    ensures var d, steps := New(mode, freshNames, shards), NeededSteps(shards, p);
            Runs(d, steps) && After(d, steps) == WithDirs(d, Needed(shards, p)) && Wf(WithDirs(d, Needed(shards, p)))
  {
    var d, q := New(mode, freshNames, shards), DirOf(shards, p);
    LastMade(d, [TMP]);
    OneStep(d, MkDir([TMP]));
    var d1 := WithDirs(d, {[TMP]});
    assert [TMP] !in Chain(q) by { NotTmp(shards, p); }
    MakeRun(d1, q);
    assert WithDirs(d1, Chain(q)) == WithDirs(d, Needed(shards, p));
    hide Runs, After, Wf, Apply, Enabled, Chain, New, DirOf;
    RunsConcat(d, [MkDir([TMP])], MakeSteps(q));
  }

  lemma NotTmp(shards: Shards, p: Path)
    requires !p.Temp?
    ensures [TMP] !in Chain(DirOf(shards, p))
  {
    assert DirOf(shards, p)[0] == MULTIPART || DirOf(shards, p)[0] == OBJECTS;
    assert |TMP| == 3 && |MULTIPART| == 9 && |OBJECTS| == 7;
  }

  /** One call to a path that has written its one byte, or all but closed its temp file, or has
      only made that. */
  function InFlight(mode: Fsync, freshNames: bool, shards: Shards, p: Path, written: nat, closed: bool): Disk
    requires written <= 1
  {
    Disk(mode, freshNames, shards, [Inode([1][..written], if closed && !mode.Fast? then written else 0)],
         map[Temp(0) := 0], Needed(shards, p), {Temp(0)}, Needed(shards, p), {},
         map[0 := Writer(0, 0, [1], written, closed, p)], {0}, [])
  }

  function WriteSteps(p: Path): seq<Step> {
    [Begin(0, 0, [1], p), Stream(0, 1), Finish(0)]
  }

  lemma TmpNeeded(shards: Shards, p: Path)
    ensures [TMP] in Needed(shards, p)
  {
  }

  lemma BeginApplies(mode: Fsync, freshNames: bool, shards: Shards, p: Path)
    requires !p.Temp?
    ensures var d, s := WithDirs(New(mode, freshNames, shards), Needed(shards, p)), Begin(0, 0, [1], p);
            Wf(d) && Enabled(d, s) && Apply(d, s) == InFlight(mode, freshNames, shards, p, 0, false)
  {
    NeededRun(mode, freshNames, shards, p);
    TmpNeeded(shards, p);
    hide Wf, Needed, Runs, After, NeededSteps;
    assert [1][..0] == [];
  }

  lemma StreamApplies(mode: Fsync, freshNames: bool, shards: Shards, p: Path)
    requires Wf(InFlight(mode, freshNames, shards, p, 0, false))
    ensures var d := InFlight(mode, freshNames, shards, p, 0, false);
            Enabled(d, Stream(0, 1)) && Apply(d, Stream(0, 1)) == InFlight(mode, freshNames, shards, p, 1, false)
  {
    hide Wf, Needed;
    var d := InFlight(mode, freshNames, shards, p, 0, false);
    assert d.inodes[0].content == [] && [1][0..1] == [1] == [1][..1];
    assert d.inodes[0].content + d.writers[0].src[0..1] == [1];
  }

  lemma FinishApplies(mode: Fsync, freshNames: bool, shards: Shards, p: Path)
    requires Wf(InFlight(mode, freshNames, shards, p, 1, false))
    ensures var d := InFlight(mode, freshNames, shards, p, 1, false);
            Enabled(d, Finish(0)) && Apply(d, Finish(0)) == InFlight(mode, freshNames, shards, p, 1, true)
  {
    hide Wf, Needed;
    assert |[1][..1]| == 1;
  }

  lemma WriteStepsAre(p: Path)
    ensures WriteSteps(p) == [Begin(0, 0, [1], p)] + [Stream(0, 1), Finish(0)]
  {
  }

  /** A first write, up to its rename. */
  lemma WriteRun(mode: Fsync, freshNames: bool, shards: Shards, p: Path)
    requires !p.Temp?
    ensures var d, steps := New(mode, freshNames, shards), NeededSteps(shards, p) + WriteSteps(p);
            && Runs(d, steps) && After(d, steps) == InFlight(mode, freshNames, shards, p, 1, true)
            && Wf(After(d, steps))
  {
    var d, begin := WithDirs(New(mode, freshNames, shards), Needed(shards, p)), Begin(0, 0, [1], p);
    var d1, d2 := InFlight(mode, freshNames, shards, p, 0, false), InFlight(mode, freshNames, shards, p, 1, false);
    hide Wf, Needed, Runs, After, NeededSteps, Apply, Enabled, New, InFlight, WithDirs, WriteSteps;
    NeededRun(mode, freshNames, shards, p);
    BeginApplies(mode, freshNames, shards, p);
    StepKeepsWf(d, begin);
    StreamApplies(mode, freshNames, shards, p);
    StepKeepsWf(d1, Stream(0, 1));
    FinishApplies(mode, freshNames, shards, p);
    StepKeepsWf(d2, Finish(0));
    TwoSteps(d1, Stream(0, 1), Finish(0));
    RunsCons(d, begin, [Stream(0, 1), Finish(0)]);
    assert WriteSteps(p) == [begin] + [Stream(0, 1), Finish(0)] by { WriteStepsAre(p); }
    RunsConcat(New(mode, freshNames, shards), NeededSteps(shards, p), WriteSteps(p));
  }

  lemma NewInv(mode: Fsync, shards: Shards)
    ensures Inv(New(mode, true, shards))
  {
  }

  /** In no mode are all writes safe that were reported as done: the first one to a path, whose
      directories are new and not synced, is gone after a crash. */
  lemma FirstWriteCanBeLost(mode: Fsync, shards: Shards, p: Path)
    requires !p.Temp?
    ensures var d0, steps := New(mode, true, shards), NeededSteps(shards, p) + WriteSteps(p);
            && Inv(d0) && Runs(d0, steps)
            && var d := After(d0, steps);
               && Commits(d, Rename(0)) && DestOf(d, Rename(0)) == p && d.writers[0].src == [1]
               && Runs(d, Acknowledge(d, Rename(0)))
               && !AlwaysHolds(After(d, Acknowledge(d, Rename(0))), p, [1])
  {
    var d0, steps := New(mode, true, shards), NeededSteps(shards, p) + WriteSteps(p);
    NewInv(mode, shards);
    WriteRun(mode, true, shards, p);
    NoCrashes(shards, p);
    RunKeepsInv(d0, steps);
    LooseAbove(mode, shards, p);
    hide Runs, After, Inv, New, AlwaysHolds, Anchored, NeededSteps, Wf;
    AcknowledgedIff(After(d0, steps), Rename(0));
  }

  lemma NoCrashes(shards: Shards, p: Path)
    ensures forall s :: s in NeededSteps(shards, p) + WriteSteps(p) ==> !s.Crash?
  {
  }

  lemma LooseAbove(mode: Fsync, shards: Shards, p: Path)
    requires !p.Temp?
    ensures var d := InFlight(mode, true, shards, p, 1, true);
            && Commits(d, Rename(0)) && DestOf(d, Rename(0)) == p && d.writers[0].src == [1]
            && !Anchored(d, DirOf(shards, p))
  {
    var d, q := InFlight(mode, true, shards, p, 1, true), DirOf(shards, p);
    assert q != [] && q[..|q|] == q && q in Chain(q);
  }

  // ---- Whole files

  /** Every committed path holds a whole write in every run. */
  ghost predicate AlwaysWhole(mode: Fsync, shards: Shards) {
    forall steps, p :: Runs(New(mode, true, shards), steps) ==> WholeAt(After(New(mode, true, shards), steps), p)
  }

  ghost predicate WholeAt(d: Disk, p: Path) {
    Wf(d) && (p in d.dir && !p.Temp? ==> HoldsWholeWrite(d, p))
  }

  /** The disk right after the rename of a first write. */
  function Renamed(mode: Fsync, shards: Shards, p: Path): Disk {
    Disk(mode, true, shards, [Inode([1], if mode.Fast? then 0 else 1)], map[p := 0], Needed(shards, p), {Temp(0), p},
         Needed(shards, p), {Link(Temp(0), 0)}, map[], {0}, [Committed(p, [1])])
  }

  lemma RenameApplies(mode: Fsync, shards: Shards, p: Path)
    requires !p.Temp? && Wf(InFlight(mode, true, shards, p, 1, true))
    ensures var d := InFlight(mode, true, shards, p, 1, true);
            Enabled(d, Rename(0)) && Apply(d, Rename(0)) == Renamed(mode, shards, p)
  {
    NeededHasDir(shards, p);
    hide Wf, Needed;
    var d := InFlight(mode, true, shards, p, 1, true);
    assert [1][..1] == [1] && d.writers - {0} == map[];
    assert (d.dir - {Temp(0)})[p := 0] == map[p := 0];
  }

  /** A rename and a crash that keeps the directories and the new entry, but not the byte. */
  function EmptyingSteps(shards: Shards, p: Path): seq<Step> {
    [Rename(0), Crash([0], Needed(shards, p), map[p := 0])]
  }

  lemma EmptyingRun(shards: Shards, p: Path)
    requires !p.Temp? && Wf(InFlight(Fast, true, shards, p, 1, true))
    ensures var d, steps := InFlight(Fast, true, shards, p, 1, true), EmptyingSteps(shards, p);
            && Runs(d, steps) && Wf(After(d, steps)) && p in After(d, steps).dir
            && !HoldsWholeWrite(After(d, steps), p)
  {
    hide Wf;
    var d, d1 := InFlight(Fast, true, shards, p, 1, true), Renamed(Fast, shards, p);
    var crash := EmptyingSteps(shards, p)[1];
    RenameApplies(Fast, shards, p);
    StepKeepsWf(d, Rename(0));
    EmptyingCrash(d1, shards, p);
    StepKeepsWf(d1, crash);
    EmptiedFile(shards, p);
    hide Apply, Enabled, HoldsWholeWrite;
    TwoSteps(d, Rename(0), crash);
  }

  lemma EmptiedFile(shards: Shards, p: Path)
    requires !p.Temp?
    requires var d, crash := Renamed(Fast, shards, p), EmptyingSteps(shards, p)[1];
             Wf(d) && Enabled(d, crash) && Wf(Apply(d, crash))
    ensures var d := Apply(Renamed(Fast, shards, p), EmptyingSteps(shards, p)[1]);
            p in d.dir && !HoldsWholeWrite(d, p)
  {
    hide TreeOk, Needed, Recoverable, RecoverableDirs;
    var d := Apply(Renamed(Fast, shards, p), EmptyingSteps(shards, p)[1]);
    assert Linked(d, p, 0);
    assert d.inodes[0].content == [] && d.log == [Committed(p, [1])];
  }

  lemma NeededHasDir(shards: Shards, p: Path)
    ensures HasDir(Needed(shards, p), DirOf(shards, p))
  {
    var q := DirOf(shards, p);
    assert q[..|q|] == q;
  }

  lemma EmptyingCrash(d: Disk, shards: Shards, p: Path)
    requires Wf(d) && d.shards == shards && d.dirs == Needed(shards, p) && d.dir == map[p := 0]
    requires d.inodes == [Inode([1], 0)]
    ensures Enabled(d, Crash([0], Needed(shards, p), map[p := 0]))
  {
    NeededHasDir(shards, p);
    hide Needed, Anchored;
  }

  /** With Fast, a crash right after the rename leaves an empty file at a committed path
      although no write of an empty stream was ever made. */
  lemma FastCanLoseACommit(shards: Shards, p: Path)
    requires !p.Temp?
    ensures var d := New(Fast, true, shards);
            var steps := NeededSteps(shards, p) + WriteSteps(p) + EmptyingSteps(shards, p);
            && Runs(d, steps) && Wf(After(d, steps)) && p in After(d, steps).dir
            && !HoldsWholeWrite(After(d, steps), p)
  {
    WriteRun(Fast, true, shards, p);
    EmptyingRun(shards, p);
    hide Runs, After, Wf, HoldsWholeWrite, InFlight, New, NeededSteps, EmptyingSteps;
    RunsConcat(New(Fast, true, shards), NeededSteps(shards, p) + WriteSteps(p), EmptyingSteps(shards, p));
  }

  /** That promise is kept exactly by the modes that sync files before they rename them. */
  lemma AlwaysWholeIff(mode: Fsync, shards: Shards)
    ensures AlwaysWhole(mode, shards) <==> !mode.Fast?
  {
    hide Runs, After, Wf, HoldsWholeWrite, New;
    if mode.Fast? {
      var p := Object(Ref([], [], []));
      FastCanLoseACommit(shards, p);
      var steps := NeededSteps(shards, p) + WriteSteps(p) + EmptyingSteps(shards, p);
      assert Runs(New(mode, true, shards), steps) && !WholeAt(After(New(mode, true, shards), steps), p);
    } else {
      forall steps, p | Runs(New(mode, true, shards), steps)
        ensures WholeAt(After(New(mode, true, shards), steps), p)
      {
        CommittedIsWhole(mode, shards, steps, p);
      }
    }
  }

  // ---- Fresh names are needed

  /** Recover has removed the first call's temp file, and a second call has taken its name. */
  function NameTaken(shards: Shards, p: Path, q: Path): Disk {
    Disk(Strict, false, shards, [Inode([1], 1), Inode([], 0)], map[Temp(0) := 1], Needed(shards, p), {Temp(0)},
         Needed(shards, p), {Link(Temp(0), 0)},
         map[0 := Writer(0, 0, [1], 1, true, p), 1 := Writer(0, 1, [2, 3], 0, false, q)], {0}, [])
  }

  lemma NameTakenRun(shards: Shards, p: Path, q: Path)
    requires !p.Temp? && !q.Temp? && Wf(InFlight(Strict, false, shards, p, 1, true))
    ensures var d, steps := InFlight(Strict, false, shards, p, 1, true), [RecoverTemp(0), Begin(1, 0, [2, 3], q)];
            Runs(d, steps) && After(d, steps) == NameTaken(shards, p, q) && Wf(NameTaken(shards, p, q))
  {
    hide Wf, Runs, After;
    var d, recover, begin := InFlight(Strict, false, shards, p, 1, true), RecoverTemp(0), Begin(1, 0, [2, 3], q);
    var d1 := Apply(d, recover);
    StepKeepsWf(d, recover);
    TakesName(shards, p, q);
    StepKeepsWf(d1, begin);
    hide Apply, Enabled, InFlight, NameTaken;
    TwoSteps(d, recover, begin);
  }

  lemma TakesName(shards: Shards, p: Path, q: Path)
    requires !q.Temp? && Wf(InFlight(Strict, false, shards, p, 1, true))
    requires Wf(Apply(InFlight(Strict, false, shards, p, 1, true), RecoverTemp(0)))
    ensures var d, begin := Apply(InFlight(Strict, false, shards, p, 1, true), RecoverTemp(0)), Begin(1, 0, [2, 3], q);
            Enabled(d, begin) && Apply(d, begin) == NameTaken(shards, p, q)
  {
    TmpNeeded(shards, p);
    hide Wf, Needed;
    assert [1][..1] == [1];
  }

  lemma PartialRename(shards: Shards, p: Path, q: Path)
    requires !p.Temp? && Wf(NameTaken(shards, p, q))
    ensures var d, steps := NameTaken(shards, p, q), [Stream(1, 1), Rename(0)];
            && Runs(d, steps) && Wf(After(d, steps)) && p in After(d, steps).dir
            && !HoldsWholeWrite(After(d, steps), p)
  {
    hide Wf, Runs, After, HoldsWholeWrite;
    var d := NameTaken(shards, p, q);
    var d1 := Apply(d, Stream(1, 1));
    StepKeepsWf(d, Stream(1, 1));
    StepKeepsWf(d1, Rename(0));
    PartialFile(shards, p, q);
    hide Apply, Enabled, NameTaken;
    TwoSteps(d, Stream(1, 1), Rename(0));
  }

  lemma PartialFile(shards: Shards, p: Path, q: Path)
    requires !p.Temp? && Wf(NameTaken(shards, p, q)) && Wf(Apply(NameTaken(shards, p, q), Stream(1, 1)))
    requires Wf(Apply(Apply(NameTaken(shards, p, q), Stream(1, 1)), Rename(0)))
    ensures var d := Apply(Apply(NameTaken(shards, p, q), Stream(1, 1)), Rename(0));
            p in d.dir && !HoldsWholeWrite(d, p)
  {
    NeededHasDir(shards, p);
    hide TreeOk, Needed;
    var d := NameTaken(shards, p, q);
    var d1 := Apply(d, Stream(1, 1));
    assert d1.inodes[1].content == [] + d.writers[1].src[0..1] == [2];
    var d2 := Apply(d1, Rename(0));
    assert Linked(d2, p, 1);
    assert d2.log == [Committed(p, [1])] && d2.inodes[d2.dir[p]].content == [2];
  }

  /** If a temp name could be used again after Recover removed it, one call would rename
      another's half-written file onto its own path. */
  lemma ReusedNameCommitsPartial(shards: Shards, p: Path, q: Path)
    requires !p.Temp? && !q.Temp?
    ensures var d := New(Strict, false, shards);
            var steps := NeededSteps(shards, p) + WriteSteps(p) +
                         ([RecoverTemp(0), Begin(1, 0, [2, 3], q)] + [Stream(1, 1), Rename(0)]);
            && Runs(d, steps) && Wf(After(d, steps)) && p in After(d, steps).dir
            && !HoldsWholeWrite(After(d, steps), p)
  {
    var s2, s3 := [RecoverTemp(0), Begin(1, 0, [2, 3], q)], [Stream(1, 1), Rename(0)];
    WriteRun(Strict, false, shards, p);
    NameTakenRun(shards, p, q);
    PartialRename(shards, p, q);
    hide Runs, After, InFlight, NameTaken, New, HoldsWholeWrite, Wf, NeededSteps, WriteSteps;
    RunsConcat(InFlight(Strict, false, shards, p, 1, true), s2, s3);
    RunsConcat(New(Strict, false, shards), NeededSteps(shards, p) + WriteSteps(p), s2 + s3);
  }
}
