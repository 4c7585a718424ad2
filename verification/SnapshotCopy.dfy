/** The optimistic copy of a live SQLite database and its two side files, against a writer that may
    change, replace, create or delete any of the three files between any two steps of the copy. */
module SnapshotCopy {
  import opened Wrappers

  datatype File = Database | Wal | Journal

  type Bytes = seq<bv8>

  datatype Stat = Stat(dev: int, ino: int, size: int, mtime: int)

  datatype Field = Dev | Ino | Size | Mtime

  function FieldOf(s: Stat, field: Field): int {
    match field
    case Dev => s.dev
    case Ino => s.ino
    case Size => s.size
    case Mtime => s.mtime
  }

  datatype Version = Version(content: Bytes, stat: Stat)

  /** The source files that exist, at one instant. */
  type Disk = map<File, Version>

  /** Every state the source went through, oldest first. */
  type History = seq<Disk>

  // What the copy observes. Times are positions in the history.

  lemma EveryFile(f: File)
    ensures f in FILES
  {
    match f case Database => case Wal => case Journal =>
  }

  /** One file of `_sqlite_snapshot_state`: an existence check, then four separate `stat` calls. */
  datatype Probe = Missing(at: nat) | Found(at: nat, devAt: nat, inoAt: nat, sizeAt: nat, mtimeAt: nat)

  ghost predicate Probes(h: History, f: File, p: Probe, from: nat, to: nat) {
    match p
    case Missing(at) => from <= at == to < |h| && f !in h[at]
    case Found(at, devAt, inoAt, sizeAt, mtimeAt) =>
      && from <= at <= devAt <= inoAt <= sizeAt <= mtimeAt == to < |h|
      && f in h[at] && f in h[devAt] && f in h[inoAt] && f in h[sizeAt] && f in h[mtimeAt]
  }

  /** The tuple the probe reads: possibly put together from several versions of the file. */
  function StatRead(h: History, f: File, p: Probe): Option<Stat>
    requires p.Missing? || Probes(h, f, p, p.at, p.mtimeAt)
  {
    match p
    case Missing(_) => None
    case Found(_, devAt, inoAt, sizeAt, mtimeAt) =>
      Some(Stat(h[devAt][f].stat.dev, h[inoAt][f].stat.ino, h[sizeAt][f].stat.size, h[mtimeAt][f].stat.mtime))
  }

  /** Reading a file from `open` to `close`: exact if the file did not change meanwhile, otherwise
      any bytes at all. */
  ghost predicate Reads(h: History, f: File, open: nat, close: nat, data: Bytes) {
    && open <= close < |h| && f in h[open]
    && (Unchanged(h, f, open, close) ==> data == h[open][f].content)
  }

  ghost predicate Unchanged(h: History, f: File, i: nat, j: nat)
    requires i <= j < |h|
  {
    forall k | i <= k <= j :: f in h[k] && f in h[i] && h[k][f] == h[i][f]
  }

  ghost predicate AbsentThroughout(h: History, f: File, i: nat, j: nat)
    requires i <= j < |h|
  {
    forall k | i <= k <= j :: f !in h[k]
  }

  datatype Copy = NoSource(at: nat) | Copied(open: nat, close: nat, data: Bytes)

  ghost predicate Copies(h: History, f: File, c: Copy, from: nat, to: nat) {
    match c
    case NoSource(at) => from <= at == to < |h| && f !in h[at]
    case Copied(open, close, data) => from <= open && close == to && Reads(h, f, open, close, data)
  }

  /** One file of the source hashes: skipped when absent, read otherwise. */
  type Hashed = Copy

  function Digest(c: Hashed, sha256: Bytes -> Bytes): seq<Bytes> {
    if c.Copied? then [sha256(c.data)] else []
  }

  /** `_sqlite_snapshot_hashes`: the digests of the files that exist, without their names. */
  function Digests(cs: map<File, Hashed>, sha256: Bytes -> Bytes): seq<Bytes>
    requires cs.Keys == FILES
  {
    Digest(cs[Database], sha256) + Digest(cs[Wal], sha256) + Digest(cs[Journal], sha256)
  }

  /** One attempt of the loop; `t` are the instants at which its steps ended. */
  datatype Attempt = Attempt(before: map<File, Probe>, copies: map<File, Copy>, hashes: map<File, Hashed>,
                             after: map<File, Probe>, t: seq<nat>)

  const FILES: set<File> := {Database, Wal, Journal}

  /** The three probes of one state read, separated by the instants `t0 <= t1 <= t2 <= t3`. */
  ghost predicate StateRead(h: History, probes: map<File, Probe>, t0: nat, t1: nat, t2: nat, t3: nat) {
    && probes.Keys == FILES
    && Probes(h, Database, probes[Database], t0, t1)
    && Probes(h, Wal, probes[Wal], t1, t2)
    && Probes(h, Journal, probes[Journal], t2, t3)
  }

  ghost predicate FilesRead(h: History, copies: map<File, Copy>, t0: nat, t1: nat, t2: nat, t3: nat) {
    && copies.Keys == FILES
    && Copies(h, Database, copies[Database], t0, t1)
    && Copies(h, Wal, copies[Wal], t1, t2)
    && Copies(h, Journal, copies[Journal], t2, t3)
  }

  /** What the attempt left in the snapshot directory. */
  function Written(copies: map<File, Copy>): map<File, Bytes> {
    map f | f in copies && copies[f].Copied? :: copies[f].data
  }

  ghost predicate ReadSomewhere(h: History, probes: map<File, Probe>) {
    probes.Keys == FILES
    && forall f | f in FILES :: probes[f].Missing? || Probes(h, f, probes[f], probes[f].at, probes[f].mtimeAt)
  }

  /** The two state tuples are equal; they name their files, so they are equal file by file. */
  ghost predicate SameState(h: History, a: map<File, Probe>, b: map<File, Probe>)
    requires ReadSomewhere(h, a) && ReadSomewhere(h, b)
  {
    forall f | f in FILES :: StatRead(h, f, a[f]) == StatRead(h, f, b[f])
  }

  /** A successful attempt: its steps in order, equal states before and after, equal digests. */
  ghost predicate Succeeds(h: History, a: Attempt, sha256: Bytes -> Bytes) {
    && |a.t| == 13 && (forall i, j | 0 <= i < j < 13 :: a.t[i] <= a.t[j]) && a.t[12] < |h|
    && StateRead(h, a.before, a.t[0], a.t[1], a.t[2], a.t[3])
    && FilesRead(h, a.copies, a.t[3], a.t[4], a.t[5], a.t[6]) && a.copies[Database].Copied?
    && FilesRead(h, a.hashes, a.t[6], a.t[7], a.t[8], a.t[9])
    && StateRead(h, a.after, a.t[9], a.t[10], a.t[11], a.t[12])
    && ReadSomewhere(h, a.before) && ReadSomewhere(h, a.after) && SameState(h, a.before, a.after)
    && Digests(a.hashes, sha256) == Digests(a.copies, sha256)
  }

  // What the source has to promise.

  /** Every change of the file while it exists, replacement included, gives one fixed identity field a
      value that the file never showed before. */
  ghost predicate FreshField(h: History, f: File, field: Field) {
    forall i, j | 0 <= i <= j < |h| && f in h[i] && f in h[j]
                  && FieldOf(h[i][f].stat, field) == FieldOf(h[j][f].stat, field) :: Unchanged(h, f, i, j)
  }

  /** Every change of the file gives it a fresh identity, but different changes may renew different fields. */
  ghost predicate FreshIdentity(h: History, f: File) {
    forall i, j | 0 <= i <= j < |h| && f in h[i] && f in h[j] && h[i][f].stat == h[j][f].stat :: Unchanged(h, f, i, j)
  }

  /** The four `stat` calls of the probe saw one version of the file. */
  ghost predicate SawOneVersion(h: History, f: File, p: Probe) {
    p.Found? ==> p.devAt <= p.mtimeAt < |h| && Unchanged(h, f, p.devAt, p.mtimeAt)
  }

  /** The two readings of the file tell every change between them: some field of the file is always
      renewed, or its identity is and both readings saw a single version. */
  ghost predicate TellsChanges(h: History, f: File, p: Probe, q: Probe) {
    (exists field :: FreshField(h, f, field)) || (FreshIdentity(h, f) && SawOneVersion(h, f, p) && SawOneVersion(h, f, q))
  }

  ghost predicate AttemptTells(h: History, a: Attempt) {
    forall f | f in a.before && f in a.after :: TellsChanges(h, f, a.before[f], a.after[f])
  }

  /** A file that is absent at two instants was absent in between. */
  ghost predicate SteadyAbsence(h: History) {
    forall f, i, j | 0 <= i <= j < |h| && f !in h[i] && f !in h[j] :: AbsentThroughout(h, f, i, j)
  }

  /** At this instant the source held exactly the copied files. */
  ghost predicate Holds(disk: Disk, snapshot: map<File, Bytes>) {
    && disk.Keys == snapshot.Keys
    && forall f | f in disk :: disk[f].content == snapshot[f]
  }

  function EndOf(p: Probe): nat {
    if p.Missing? then p.at else p.mtimeAt
  }

  function FieldAt(p: Probe, field: Field): nat
    requires p.Found?
  {
    match field
    case Dev => p.devAt
    case Ino => p.inoAt
    case Size => p.sizeAt
    case Mtime => p.mtimeAt
  }

  lemma EqualFieldPins(h: History, field: Field, f: File, p: Probe, q: Probe, t: nat, u: nat, v: nat, w: nat)
    requires FreshField(h, f, field) && p.Found? && q.Found?
    requires Probes(h, f, p, t, u) && Probes(h, f, q, v, w) && u <= v && StatRead(h, f, p) == StatRead(h, f, q)
    ensures Unchanged(h, f, FieldAt(p, field), FieldAt(q, field)) && FieldAt(p, field) <= u && v <= FieldAt(q, field)
  {
    var a, b := FieldAt(p, field), FieldAt(q, field);
    assert FieldOf(h[a][f].stat, field) == FieldOf(h[b][f].stat, field);
  }

  lemma EqualIdentityPins(h: History, f: File, p: Probe, q: Probe, t: nat, u: nat, v: nat, w: nat)
    requires FreshIdentity(h, f) && SawOneVersion(h, f, p) && SawOneVersion(h, f, q) && p.Found? && q.Found?
    requires Probes(h, f, p, t, u) && Probes(h, f, q, v, w) && u <= v && StatRead(h, f, p) == StatRead(h, f, q)
    ensures Unchanged(h, f, p.devAt, q.devAt) && p.devAt <= u && v <= q.devAt
  {
    assert h[p.inoAt][f] == h[p.devAt][f] && h[p.sizeAt][f] == h[p.devAt][f] && h[p.mtimeAt][f] == h[p.devAt][f];
    assert h[q.inoAt][f] == h[q.devAt][f] && h[q.sizeAt][f] == h[q.devAt][f] && h[q.mtimeAt][f] == h[q.devAt][f];
    assert h[p.devAt][f].stat == h[q.devAt][f].stat;
  }

  /** Equal readings of one file that tell its changes pin it down between them. */
  lemma EqualReadingsPin(h: History, f: File, p: Probe, q: Probe, t: nat, u: nat, v: nat, w: nat, i: nat, j: nat)
    requires TellsChanges(h, f, p, q) && SteadyAbsence(h)
    requires Probes(h, f, p, t, u) && Probes(h, f, q, v, w) && u <= i <= j <= v
    requires StatRead(h, f, p) == StatRead(h, f, q)
    ensures p.Missing? ==> AbsentThroughout(h, f, i, j)
    ensures p.Found? ==> Unchanged(h, f, i, j)
  {
    hide FreshField, FreshIdentity, SawOneVersion;
    if p.Missing? {
      assert AbsentThroughout(h, f, p.at, q.at);
    } else {
      var a, b := p.devAt, q.devAt;
      if field :| FreshField(h, f, field) {
        EqualFieldPins(h, field, f, p, q, t, u, v, w);
        a, b := FieldAt(p, field), FieldAt(q, field);
      } else {
        EqualIdentityPins(h, f, p, q, t, u, v, w);
      }
      forall k | i <= k <= j ensures f in h[k] && f in h[i] && h[k][f] == h[i][f] {
        assert h[k][f] == h[a][f] && h[i][f] == h[a][f];
      }
    }
  }

  /** A file pinned down from the state read to the end of its copy is copied as it was. */
  lemma PinnedCopyIsExact(h: History, f: File, c: Copy, from: nat, to: nat, i: nat)
    requires Copies(h, f, c, from, to) && i <= from && to < |h|
    requires AbsentThroughout(h, f, i, to) || Unchanged(h, f, i, to)
    ensures c.NoSource? <==> f !in h[i]
    ensures c.Copied? ==> c.data == h[i][f].content
  {
    match c
    case NoSource(at) => assert i <= at <= to;
    case Copied(open, close, data) =>
      assert f in h[open] && i <= open <= to;
      assert Unchanged(h, f, i, to);
      assert Unchanged(h, f, open, close) by {
        forall k | open <= k <= close ensures f in h[k] && h[k][f] == h[open][f] {
          assert h[k][f] == h[i][f] && h[open][f] == h[i][f];
        }
      }
  }

  lemma PinnedFile(h: History, a: Attempt, sha256: Bytes -> Bytes, f: File)
    requires Succeeds(h, a, sha256) && AttemptTells(h, a) && SteadyAbsence(h)
    ensures a.copies[f].NoSource? <==> f !in h[a.t[3]]
    ensures a.copies[f].Copied? ==> a.copies[f].data == h[a.t[3]][f].content
  {
    hide TellsChanges;
    EveryFile(f);
    var n := match f case Database => 0 case Wal => 1 case Journal => 2;
    var t := a.t;
    assert Probes(h, f, a.before[f], t[n], t[n + 1]) && Probes(h, f, a.after[f], t[n + 9], t[n + 10]);
    assert Copies(h, f, a.copies[f], t[n + 3], t[n + 4]);
    EqualReadingsPin(h, f, a.before[f], a.after[f], t[n], t[n + 1], t[n + 9], t[n + 10], t[3], t[n + 4]);
    PinnedCopyIsExact(h, f, a.copies[f], t[n + 3], t[n + 4], t[3]);
  }

  /** If the readings of each file tell its changes and no absent file flickers, a successful attempt has
      copied one instant of the source: the end of its first state read. */
  lemma CopiedOneInstant(h: History, a: Attempt, sha256: Bytes -> Bytes)
    requires Succeeds(h, a, sha256) && AttemptTells(h, a) && SteadyAbsence(h)
    ensures Holds(h[a.t[3]], Written(a.copies))
  {
    hide Succeeds, AttemptTells, SteadyAbsence;
    AttemptKeys(h, a, sha256);
    forall f ensures f in h[a.t[3]] <==> f in Written(a.copies) {
      PinnedFile(h, a, sha256, f);
      EveryFile(f);
    }
    forall f | f in h[a.t[3]] ensures h[a.t[3]][f].content == Written(a.copies)[f] {
      PinnedFile(h, a, sha256, f);
    }
  }

  lemma AttemptKeys(h: History, a: Attempt, sha256: Bytes -> Bytes)
    requires Succeeds(h, a, sha256)
    ensures |a.t| == 13 && a.t[3] < |h| && a.copies.Keys == FILES
  {
  }

  // Both promises are needed.

  /** A version that reports its real size. */
  function Dated(content: Bytes, mtime: int): Version {
    Version(content, Stat(1, 1, |content|, mtime))
  }

  /** Every file reports the number of bytes it holds. */
  ghost predicate RealSizes(h: History) {
    forall i, f | 0 <= i < |h| && f in h[i] :: h[i][f].stat.size == |h[i][f].content|
  }

  /** The database never changes; the two side files take turns, and are never there together. */
  function Flicker(): History {
    var d := Dated([0], 0);
    [ map[Database := d],
      map[Database := d, Wal := Dated([1], 1)],
      map[Database := d, Journal := Dated([2], 2)],
      map[Database := d, Wal := Dated([1], 3)],
      map[Database := d, Journal := Dated([2], 4)],
      map[Database := d] ]
  }

  function FlickerAttempt(): Attempt {
    Attempt(
      map[Database := Found(0, 0, 0, 0, 0), Wal := Missing(0), Journal := Missing(0)],
      map[Database := Copied(0, 0, [0]), Wal := Copied(1, 1, [1]), Journal := Copied(2, 2, [2])],
      map[Database := Copied(2, 2, [0]), Wal := Copied(3, 3, [1]), Journal := Copied(4, 4, [2])],
      map[Database := Found(5, 5, 5, 5, 5), Wal := Missing(5), Journal := Missing(5)],
      [0, 0, 0, 0, 0, 1, 2, 2, 3, 4, 5, 5, 5])
  }

  lemma FlickerFiles(i: nat)
    requires i < 6
    ensures |Flicker()| == 6
    ensures Database in Flicker()[i] && Flicker()[i][Database] == Dated([0], 0)
    ensures Wal in Flicker()[i] <==> i == 1 || i == 3
    ensures Wal in Flicker()[i] ==> Flicker()[i][Wal] == Dated([1], i)
    ensures Journal in Flicker()[i] <==> i == 2 || i == 4
    ensures Journal in Flicker()[i] ==> Flicker()[i][Journal] == Dated([2], i)
  {
    if i == 0 {} else if i == 1 {} else if i == 2 {} else if i == 3 {} else if i == 4 {} else {}
  }

  lemma FlickerHasRealSizes()
    ensures RealSizes(Flicker())
  {
    hide Flicker;
    var h: History := Flicker();
    FlickerFiles(0);
    forall i, f: File | 0 <= i < |h| && f in h[i] ensures h[i][f].stat.size == |h[i][f].content| {
      FlickerFiles(i);
      match f case Database => case Wal => case Journal =>
    }
  }

  lemma FlickerIsFresh()
    ensures forall f :: FreshField(Flicker(), f, Mtime)
  {
    hide Flicker;
    var h: History := Flicker();
    FlickerFiles(0);
    forall f, i, j | 0 <= i <= j < |h| && f in h[i] && f in h[j] && h[i][f].stat.mtime == h[j][f].stat.mtime
      ensures Unchanged(h, f, i, j)
    {
      FlickerFiles(i);
      FlickerFiles(j);
      match f
      case Database =>
        forall k | i <= k <= j ensures f in h[k] && h[k][f] == h[i][f] {
          FlickerFiles(k);
        }
      case Wal =>
      case Journal =>
    }
  }

  lemma FlickerStates()
    ensures var h, a := Flicker(), FlickerAttempt();
            && StateRead(h, a.before, a.t[0], a.t[1], a.t[2], a.t[3])
            && StateRead(h, a.after, a.t[9], a.t[10], a.t[11], a.t[12])
  {
    hide Flicker;
    FlickerFiles(0);
    FlickerFiles(1);
    FlickerFiles(2);
    FlickerFiles(3);
    FlickerFiles(4);
    FlickerFiles(5);
  }

  lemma FlickerReads()
    ensures var h, a := Flicker(), FlickerAttempt();
            && FilesRead(h, a.copies, a.t[3], a.t[4], a.t[5], a.t[6])
            && FilesRead(h, a.hashes, a.t[6], a.t[7], a.t[8], a.t[9])
  {
    hide Flicker, Unchanged;
    FlickerFiles(0);
    FlickerFiles(1);
    FlickerFiles(2);
    FlickerFiles(3);
    FlickerFiles(4);
    FlickerFiles(5);
  }

  ghost predicate ReadAlike(h: History, f: File, p: Probe, q: Probe) {
    && (p.Missing? || Probes(h, f, p, p.at, p.mtimeAt))
    && (q.Missing? || Probes(h, f, q, q.at, q.mtimeAt))
    && StatRead(h, f, p) == StatRead(h, f, q)
  }

  lemma FlickerReadsAlike(f: File)
    requires f in FILES
    ensures ReadAlike(Flicker(), f, FlickerAttempt().before[f], FlickerAttempt().after[f])
  {
    hide Flicker;
    FlickerFiles(0);
    FlickerFiles(5);
    match f case Database => case Wal => case Journal =>
  }

  lemma FlickerSameState()
    ensures var h, a := Flicker(), FlickerAttempt();
            ReadSomewhere(h, a.before) && ReadSomewhere(h, a.after) && SameState(h, a.before, a.after)
  {
    hide Flicker, Probes, StatRead;
    forall f | f in FILES ensures ReadAlike(Flicker(), f, FlickerAttempt().before[f], FlickerAttempt().after[f]) {
      FlickerReadsAlike(f);
    }
  }

  lemma FlickerSucceeds(sha256: Bytes -> Bytes)
    ensures Succeeds(Flicker(), FlickerAttempt(), sha256)
  {
    hide Flicker, StateRead, FilesRead, SameState, ReadSomewhere;
    FlickerFiles(0);
    FlickerStates();
    FlickerReads();
    FlickerSameState();
    assert Digests(FlickerAttempt().hashes, sha256) == Digests(FlickerAttempt().copies, sha256);
  }

  /** Even when every change of an existing file gives it a fresh modification time, side files that
      appear and disappear between the two state reads can be copied from different instants. */
  lemma FlickerBreaksTheCopy(sha256: Bytes -> Bytes)
    ensures RealSizes(Flicker()) && (forall f :: FreshField(Flicker(), f, Mtime)) && !SteadyAbsence(Flicker())
    ensures Succeeds(Flicker(), FlickerAttempt(), sha256)
    ensures forall i | 0 <= i < |Flicker()| :: !Holds(Flicker()[i], Written(FlickerAttempt().copies))
  {
    hide Flicker, FreshField, Succeeds, RealSizes;
    var h: History, snapshot := Flicker(), Written(FlickerAttempt().copies);
    FlickerHasRealSizes();
    FlickerIsFresh();
    FlickerSucceeds(sha256);
    FlickerFiles(0);
    FlickerFiles(1);
    FlickerFiles(2);
    assert !AbsentThroughout(h, Wal, 0, 2);
    assert Wal in snapshot && Journal in snapshot;
    forall i | 0 <= i < |h| ensures !Holds(h[i], snapshot) {
      FlickerFiles(i);
    }
  }

  /** Both files are always there, but each changes while its four identity fields are read. */
  function Torn(): History {
    [ map[Database := Dated([9], 1), Wal := Dated([9], 1)],
      map[Database := Dated([0, 0], 2), Wal := Dated([9], 1)],
      map[Database := Dated([0, 0], 2), Wal := Dated([7, 7], 2)],
      map[Database := Dated([8], 3), Wal := Dated([1], 3)],
      map[Database := Dated([0, 0], 4), Wal := Dated([7], 4)],
      map[Database := Dated([8], 5), Wal := Dated([1], 5)],
      map[Database := Dated([9], 2), Wal := Dated([9], 2)] ]
  }

  function TornAttempt(): Attempt {
    Attempt(
      map[Database := Found(0, 0, 0, 0, 1), Wal := Found(1, 1, 1, 1, 2), Journal := Missing(2)],
      map[Database := Copied(2, 2, [0, 0]), Wal := Copied(3, 3, [1]), Journal := NoSource(3)],
      map[Database := Copied(4, 4, [0, 0]), Wal := Copied(5, 5, [1]), Journal := NoSource(5)],
      map[Database := Found(6, 6, 6, 6, 6), Wal := Found(6, 6, 6, 6, 6), Journal := Missing(6)],
      [0, 1, 2, 2, 2, 3, 3, 4, 5, 5, 6, 6, 6])
  }

  lemma TornFiles(i: nat)
    requires i < 7
    ensures |Torn()| == 7 && Torn()[i].Keys == {Database, Wal}
    ensures Torn()[i][Database] ==
            if i == 0 then Dated([9], 1) else if i <= 2 then Dated([0, 0], 2) else if i == 6 then Dated([9], 2)
            else Dated(if i == 4 then [0, 0] else [8], i)
    ensures Torn()[i][Wal] ==
            if i <= 1 then Dated([9], 1) else if i == 2 then Dated([7, 7], 2) else if i == 6 then Dated([9], 2)
            else Dated(if i == 4 then [7] else [1], i)
  {
    if i == 0 {} else if i == 1 {} else if i == 2 {} else if i == 3 {} else if i == 4 {} else if i == 5 {} else {}
  }

  lemma TornHasRealSizes()
    ensures RealSizes(Torn())
  {
    hide Torn;
    var h: History := Torn();
    TornFiles(0);
    forall i, f: File | 0 <= i < |h| && f in h[i] ensures h[i][f].stat.size == |h[i][f].content| {
      TornFiles(i);
      match f case Database => case Wal => case Journal =>
    }
  }

  lemma TornIsFreshAndSteady()
    ensures (forall f :: FreshIdentity(Torn(), f)) && SteadyAbsence(Torn())
  {
    hide Torn;
    var h: History := Torn();
    TornFiles(0);
    forall f, i, j | 0 <= i <= j < |h| && f in h[i] && f in h[j] && h[i][f].stat == h[j][f].stat
      ensures Unchanged(h, f, i, j)
    {
      TornFiles(i);
      TornFiles(j);
      forall k | i <= k <= j ensures f in h[k] && h[k][f] == h[i][f] {
        TornFiles(k);
      }
    }
    forall f, i, j | 0 <= i <= j < |h| && f !in h[i] && f !in h[j] ensures AbsentThroughout(h, f, i, j) {
      TornFiles(i);
      forall k | i <= k <= j ensures f !in h[k] {
        TornFiles(k);
      }
    }
  }

  lemma TornStates()
    ensures var h, a := Torn(), TornAttempt();
            && StateRead(h, a.before, a.t[0], a.t[1], a.t[2], a.t[3])
            && StateRead(h, a.after, a.t[9], a.t[10], a.t[11], a.t[12])
  {
    hide Torn;
    TornFiles(0);
    TornFiles(1);
    TornFiles(2);
    TornFiles(3);
    TornFiles(4);
    TornFiles(5);
    TornFiles(6);
  }

  lemma TornReads()
    ensures var h, a := Torn(), TornAttempt();
            && FilesRead(h, a.copies, a.t[3], a.t[4], a.t[5], a.t[6])
            && FilesRead(h, a.hashes, a.t[6], a.t[7], a.t[8], a.t[9])
  {
    hide Torn, Unchanged;
    TornFiles(0);
    TornFiles(1);
    TornFiles(2);
    TornFiles(3);
    TornFiles(4);
    TornFiles(5);
    TornFiles(6);
  }

  lemma TornReadsAlike(f: File)
    requires f in FILES
    ensures ReadAlike(Torn(), f, TornAttempt().before[f], TornAttempt().after[f])
  {
    hide Torn;
    TornFiles(0);
    TornFiles(1);
    TornFiles(2);
    TornFiles(6);
    match f case Database => case Wal => case Journal =>
  }

  lemma TornSameState()
    ensures var h, a := Torn(), TornAttempt();
            ReadSomewhere(h, a.before) && ReadSomewhere(h, a.after) && SameState(h, a.before, a.after)
  {
    hide Torn, Probes, StatRead;
    forall f | f in FILES ensures ReadAlike(Torn(), f, TornAttempt().before[f], TornAttempt().after[f]) {
      TornReadsAlike(f);
    }
  }

  lemma TornSucceeds(sha256: Bytes -> Bytes)
    ensures Succeeds(Torn(), TornAttempt(), sha256)
  {
    hide Torn, StateRead, FilesRead, SameState, ReadSomewhere;
    TornFiles(0);
    TornStates();
    TornReads();
    TornSameState();
    assert Digests(TornAttempt().hashes, sha256) == Digests(TornAttempt().copies, sha256);
  }

  /** Fresh identities alone do not help either: an identity read by four calls can mix two versions
      and collide with a later one. */
  lemma TornIdentityBreaksTheCopy(sha256: Bytes -> Bytes)
    ensures RealSizes(Torn()) && (forall f :: FreshIdentity(Torn(), f)) && SteadyAbsence(Torn()) && forall field :: !FreshField(Torn(), Database, field)
    ensures Succeeds(Torn(), TornAttempt(), sha256)
    ensures forall i | 0 <= i < |Torn()| :: !Holds(Torn()[i], Written(TornAttempt().copies))
  {
    hide Torn, FreshIdentity, SteadyAbsence, Succeeds, RealSizes;
    var h: History, snapshot := Torn(), Written(TornAttempt().copies);
    TornHasRealSizes();
    TornIsFreshAndSteady();
    TornSucceeds(sha256);
    TornFiles(0);
    TornFiles(1);
    TornFiles(2);
    TornFiles(6);
    forall field ensures !FreshField(h, Database, field) {
      match field
      case Dev => assert !Unchanged(h, Database, 0, 1);
      case Ino => assert !Unchanged(h, Database, 0, 1);
      case Size => assert !Unchanged(h, Database, 0, 6);
      case Mtime => assert !Unchanged(h, Database, 2, 6);
    }
    assert snapshot[Database] == [0, 0] && snapshot[Wal] == [1];
    forall i | 0 <= i < |h| ensures !Holds(h[i], snapshot) {
      TornFiles(i);
    }
  }
}
