/** The copy itself, step by step, with the writer running between any two steps. */
module SnapshotMachine {
  import opened Wrappers
  import opened SnapshotCopy

  datatype CopyError = SourceChanged | RecoveryRequired

  /** A source file vanished between its existence check and its use. */
  datatype NotFound = NotFound

  const HEADER_BOUND := 512

  /** `_rollback_journal_requires_recovery`, on the copied journal. */
  predicate RequiresRecovery(snapshot: map<File, Bytes>) {
    Journal in snapshot && |snapshot[Journal]| > HEADER_BOUND
    && exists i | 0 <= i < 8 :: snapshot[Journal][i] != 0
  }

  /** The journal is longer than its header, and its magic was not zeroed. */
  ghost predicate HasHotJournal(snapshot: map<File, Bytes>) {
    Journal in snapshot && |snapshot[Journal]| > 512 && snapshot[Journal][..8] != [0, 0, 0, 0, 0, 0, 0, 0]
  }

  lemma HotIff(snapshot: map<File, Bytes>)
    ensures RequiresRecovery(snapshot) <==> HasHotJournal(snapshot)
  {
    if Journal in snapshot && |snapshot[Journal]| > 512 {
      var head, zeros: Bytes := snapshot[Journal][..8], [0, 0, 0, 0, 0, 0, 0, 0];
      if forall i | 0 <= i < 8 :: snapshot[Journal][i] == 0 {
        assert forall i | 0 <= i < 8 :: head[i] == zeros[i];
      } else {
        var i :| 0 <= i < 8 && snapshot[Journal][i] != 0;
        assert head[i] != zeros[i];
      }
    }
  }

  type StateTuple = seq<(File, Stat)>

  function Labelled(f: File, s: Option<Stat>): StateTuple {
    if s.Some? then [(f, s.value)] else []
  }

  function TupleOf(d: Option<Stat>, w: Option<Stat>, j: Option<Stat>): StateTuple {
    Labelled(Database, d) + Labelled(Wal, w) + Labelled(Journal, j)
  }

  /** The labels make the tuple say which file each identity belongs to. */
  lemma TuplesEqualByFile(d: Option<Stat>, w: Option<Stat>, j: Option<Stat>, d': Option<Stat>, w': Option<Stat>, j': Option<Stat>)
    requires TupleOf(d, w, j) == TupleOf(d', w', j')
    ensures d == d' && w == w' && j == j'
  {
    TupleMember(d, w, j, Database);
    TupleMember(d, w, j, Wal);
    TupleMember(d, w, j, Journal);
    TupleMember(d', w', j', Database);
    TupleMember(d', w', j', Wal);
    TupleMember(d', w', j', Journal);
  }

  lemma TupleMember(d: Option<Stat>, w: Option<Stat>, j: Option<Stat>, f: File)
    ensures forall s :: (f, s) in TupleOf(d, w, j) <==>
                        (match f case Database => d case Wal => w case Journal => j) == Some(s)
  {
    var a, b, c := Labelled(Database, d), Labelled(Wal, w), Labelled(Journal, j);
    forall s ensures (f, s) in a + b + c <==> (f, s) in a || (f, s) in b || (f, s) in c {
    }
  }

  // Observations of a run stay true while the run goes on.

  lemma ProbesLater(h: History, k: History, f: File, p: Probe, from: nat, to: nat)
    requires Probes(h, f, p, from, to) && h <= k
    ensures Probes(k, f, p, from, to) && StatRead(k, f, p) == StatRead(h, f, p)
  {
  }

  lemma ReadsLater(h: History, k: History, f: File, open: nat, close: nat, data: Bytes)
    requires Reads(h, f, open, close, data) && h <= k
    ensures Reads(k, f, open, close, data)
  {
    assert forall i | open <= i <= close :: k[i] == h[i];
    if Unchanged(k, f, open, close) {
      assert forall i | open <= i <= close :: f in h[i] && h[i][f] == h[open][f];
      assert Unchanged(h, f, open, close);
    }
  }

  lemma CopiesLater(h: History, k: History, f: File, c: Copy, from: nat, to: nat)
    requires Copies(h, f, c, from, to) && h <= k
    ensures Copies(k, f, c, from, to)
  {
    match c
    case NoSource(_) =>
    case Copied(open, close, data) => ReadsLater(h, k, f, open, close, data);
  }

  /** The digests of the private copies, which nobody else touches. */
  function SnapshotDigests(snapshot: map<File, Bytes>, sha256: Bytes -> Bytes): seq<Bytes> {
    (if Database in snapshot then [sha256(snapshot[Database])] else [])
    + (if Wal in snapshot then [sha256(snapshot[Wal])] else [])
    + (if Journal in snapshot then [sha256(snapshot[Journal])] else [])
  }

  lemma WrittenDigests(copies: map<File, Copy>, sha256: Bytes -> Bytes)
    requires copies.Keys == FILES
    ensures SnapshotDigests(Written(copies), sha256) == Digests(copies, sha256)
  {
  }

  // A source that keeps still.

  /** The source does not change from the instant on. */
  ghost predicate Quiet(h: History, from: nat) {
    forall k | from <= k < |h| :: h[k] == h[from]
  }

  /** Between the two instants the source changes, or it has no database to begin with. */
  ghost predicate Disturbed(h: History, from: nat, to: nat)
    requires from <= to < |h|
  {
    Database !in h[from] || !Quiet(h[..to + 1], from)
  }

  /** The instants cut the run into stretches, each of them disturbed. */
  ghost predicate DisturbedBetween(h: History, cuts: seq<nat>) {
    && (forall k | 0 <= k < |cuts| :: cuts[k] < |h|)
    && (forall k | 0 <= k < |cuts| - 1 :: DisturbedAfter(h, cuts, k))
  }

  ghost predicate DisturbedAfter(h: History, cuts: seq<nat>, k: nat) {
    k + 1 < |cuts| && cuts[k] <= cuts[k + 1] < |h| && Disturbed(h, cuts[k], cuts[k + 1])
  }

  lemma NoCuts(h: History, cuts: seq<nat>)
    requires |cuts| == 1 && cuts[0] < |h|
    ensures DisturbedBetween(h, cuts)
  {
  }

  lemma CutOnce(h: History, k: History, cuts: seq<nat>, base: Disk)
    requires h != [] && h <= k && h[|h| - 1] == base && cuts != [] && cuts[|cuts| - 1] == |h| - 1
    requires DisturbedBetween(h, cuts) && (Database in base ==> !Quiet(k, |h| - 1))
    ensures DisturbedBetween(k, cuts + [|k| - 1])
  {
    var more := cuts + [|k| - 1];
    forall i | 0 <= i < |more| - 1 ensures DisturbedAfter(k, more, i) {
      if i == |cuts| - 1 {
        assert k[..|k|] == k;
      } else {
        assert more[i] == cuts[i] && more[i + 1] == cuts[i + 1];
        assert DisturbedAfter(h, cuts, i);
        assert h[..cuts[i + 1] + 1] == k[..cuts[i + 1] + 1];
      }
    }
  }

  function ContentsOf(disk: Disk): map<File, Bytes> {
    map f | f in disk :: disk[f].content
  }

  function StatOf(disk: Disk, f: File): Option<Stat> {
    if f in disk then Some(disk[f].stat) else None
  }

  function StateOf(disk: Disk): StateTuple {
    TupleOf(StatOf(disk, Database), StatOf(disk, Wal), StatOf(disk, Journal))
  }

  /** A quiet run was quiet when it was shorter, and still is from any later instant on. */
  lemma QuietStep(h0: History, hk: History, h: History)
    requires h0 != [] && h0 <= hk <= h
    ensures Quiet(h, |h0| - 1) ==> Quiet(hk, |h0| - 1) && Quiet(h, |hk| - 1) && hk[|hk| - 1] == h0[|h0| - 1]
  {
    if Quiet(h, |h0| - 1) {
      assert forall i | 0 <= i < |hk| :: hk[i] == h[i];
      assert forall i | 0 <= i < |h0| :: h0[i] == h[i];
    }
  }

  /** What three reads of a quiet source find. */
  lemma QuietFiles(h: History, copies: map<File, Copy>, t0: nat, t1: nat, t2: nat, t3: nat)
    requires FilesRead(h, copies, t0, t1, t2, t3) && Quiet(h, t0)
    ensures forall f :: f in copies
    ensures forall f :: if f in h[t0] then copies[f].Copied? && copies[f].data == h[t0][f].content else copies[f].NoSource?
    ensures Written(copies) == ContentsOf(h[t0])
  {
    forall f ensures f in FILES && if f in h[t0] then copies[f].Copied? && copies[f].data == h[t0][f].content else copies[f].NoSource? {
      EveryFile(f);
    }
  }

  lemma QuietDigests(disk: Disk, sha256: Bytes -> Bytes, hashes: map<File, Hashed>)
    requires hashes.Keys == FILES && forall f :: f in hashes
    requires forall f :: if f in disk then hashes[f].Copied? && hashes[f].data == disk[f].content else hashes[f].NoSource?
    ensures Digests(hashes, sha256) == SnapshotDigests(ContentsOf(disk), sha256)
  {
  }

  class CopyRun {
    var source: Disk
    var snapshot: map<File, Bytes>
    ghost var history: History

    ghost predicate Valid()
      reads this
    {
      history != [] && history[|history| - 1] == source
    }

    ghost function Now(): nat
      requires Valid()
      reads this
    {
      |history| - 1
    }

    constructor (source: Disk)
      ensures Valid() && history == [source] && snapshot == map[]
    {
      this.source, snapshot, history := source, map[], [source];
    }

    /** The concurrent writer: any number of arbitrary changes. */
    method Writer()
      requires Valid()
      modifies this`source, this`history
      ensures Valid() && old(history) <= history
    {
      var n: nat := *;
      while n > 0
        invariant Valid() && old(history) <= history
      {
        source := *;
        history := history + [source];
        n := n - 1;
      }
    }

    /** `path.exists()`. */
    method Exists(f: File) returns (b: bool)
      requires Valid()
      modifies this`source, this`history
      ensures Valid() && old(history) <= history && b == (f in source)
    {
      Writer();
      b := f in source;
    }

    /** `path.stat()`. */
    method StatCall(f: File) returns (r: Result<Stat, NotFound>)
      requires Valid()
      modifies this`source, this`history
      ensures Valid() && old(history) <= history
      ensures r.Ok? <==> f in source
      ensures r.Ok? ==> r.value == source[f].stat
    {
      Writer();
      r := if f in source then Ok(source[f].stat) else Err(NotFound);
    }

    /** One row of the state tuple. */
    method ProbeFile(f: File) returns (r: Result<Option<Stat>, NotFound>, ghost p: Probe)
      requires Valid()
      modifies this`source, this`history
      ensures Valid() && old(history) <= history
      ensures r.Ok? ==> Probes(history, f, p, old(Now()), Now()) && r.value == StatRead(history, f, p)
      ensures Quiet(history, old(Now())) ==> r == Ok(StatOf(old(source), f))
    {
      p := Missing(0);
      var there := Exists(f);
      if !there {
        p := Missing(Now());
        return Ok(None), p;
      }
      ghost var at := Now();
      var first := StatCall(f);
      if first.Err? { return Err(NotFound), p; }
      ghost var devAt := Now();
      var second := StatCall(f);
      if second.Err? { return Err(NotFound), p; }
      ghost var inoAt := Now();
      var third := StatCall(f);
      if third.Err? { return Err(NotFound), p; }
      ghost var sizeAt := Now();
      var fourth := StatCall(f);
      if fourth.Err? { return Err(NotFound), p; }
      p := Found(at, devAt, inoAt, sizeAt, Now());
      r := Ok(Some(Stat(first.value.dev, second.value.ino, third.value.size, fourth.value.mtime)));
    }

    /** `_sqlite_snapshot_state`. */
    method ReadState() returns (r: Result<StateTuple, NotFound>, ghost probes: map<File, Probe>, ghost t1: nat, ghost t2: nat)
      requires Valid()
      modifies this`source, this`history
      ensures Valid() && old(history) <= history
      ensures r.Ok? ==> StateRead(history, probes, old(Now()), t1, t2, Now())
      ensures r.Ok? ==> r.value == TupleOf(StatRead(history, Database, probes[Database]),
                                           StatRead(history, Wal, probes[Wal]),
                                           StatRead(history, Journal, probes[Journal]))
      ensures Quiet(history, old(Now())) ==> r == Ok(StateOf(old(source)))
    {
      hide Probes, StatRead, TupleOf, StatOf, Quiet;
      probes, t1, t2 := map[], 0, 0;
      ghost var t0, h0 := Now(), history;
      var d, p := ProbeFile(Database);
      if d.Err? { return Err(NotFound), probes, t1, t2; }
      t1 := Now();
      ghost var h1 := history;
      var w, q := ProbeFile(Wal);
      QuietStep(h0, h1, history);
      if w.Err? { return Err(NotFound), probes, t1, t2; }
      t2 := Now();
      ghost var h2 := history;
      var j, s := ProbeFile(Journal);
      QuietStep(h0, h1, history);
      QuietStep(h0, h2, history);
      if j.Err? { return Err(NotFound), probes, t1, t2; }
      ProbesLater(h1, history, Database, p, t0, t1);
      ProbesLater(h2, history, Wal, q, t1, t2);
      probes := map[Database := p, Wal := q, Journal := s];
      r := Ok(TupleOf(d.value, w.value, j.value));
    }

    /** Opens and reads one source file; what is read is only meaningful if the file stayed as it was. */
    method ReadSource(f: File) returns (r: Result<Bytes, NotFound>, ghost open: nat)
      requires Valid()
      modifies this`source, this`history
      ensures Valid() && old(history) <= history
      ensures r.Ok? ==> old(Now()) <= open && Reads(history, f, open, Now(), r.value)
      ensures r.Err? ==> f !in source
    {
      Writer();
      open := Now();
      if f !in source {
        return Err(NotFound), open;
      }
      var version, steady := source[f], true;
      var n: nat := *;
      while n > 0
        invariant Valid() && old(history) <= history && open <= Now()
        invariant f in history[open] && history[open][f] == version
        invariant steady ==> Unchanged(history, f, open, Now())
        invariant !steady ==> !Unchanged(history, f, open, Now())
      {
        ghost var before := history;
        source := *;
        history := history + [source];
        assert forall k | open <= k < |before| :: history[k] == before[k];
        if f !in source || source[f] != version {
          steady := false;
        }
        n := n - 1;
      }
      var data := version.content;
      if !steady {
        data := *;
      }
      r := Ok(data);
    }

    /** `shutil.copyfile(source, snapshot)`. */
    method CopyFile(f: File) returns (ok: bool, ghost c: Copy)
      requires Valid()
      modifies this
      ensures Valid() && old(history) <= history
      ensures ok ==> c.Copied? && Copies(history, f, c, old(Now()), Now()) && snapshot == old(snapshot)[f := c.data]
      ensures !ok ==> f !in source
    {
      hide Reads;
      ghost var open;
      var r;
      r, open := ReadSource(f);
      c := NoSource(0);
      ok := r.Ok?;
      if ok {
        c := Copied(open, Now(), r.value);
        snapshot := snapshot[f := r.value];
      }
    }

    /** `_copy_optional_sqlite_sidecar`. */
    method CopyOptional(f: File) returns (ok: bool, ghost c: Copy)
      requires Valid()
      modifies this
      ensures Valid() && old(history) <= history
      ensures ok ==> Copies(history, f, c, old(Now()), Now())
      ensures ok ==> snapshot == if c.Copied? then old(snapshot)[f := c.data] else old(snapshot) - {f}
      ensures Quiet(history, old(Now())) ==> ok
    {
      hide Reads;
      var there := Exists(f);
      if there {
        ok, c := CopyFile(f);
      } else {
        snapshot := snapshot - {f};
        ok, c := true, NoSource(Now());
      }
    }

    /** One member of `_sqlite_snapshot_hashes` of the source. */
    method HashSource(f: File, sha256: Bytes -> Bytes) returns (r: Result<seq<Bytes>, NotFound>, ghost c: Hashed)
      requires Valid()
      modifies this`source, this`history
      ensures Valid() && old(history) <= history
      ensures r.Ok? ==> Copies(history, f, c, old(Now()), Now()) && r.value == Digest(c, sha256)
      ensures Quiet(history, old(Now())) ==> r.Ok?
    {
      hide Reads;
      c := NoSource(0);
      var there := Exists(f);
      if !there {
        c := NoSource(Now());
        return Ok([]), c;
      }
      ghost var open;
      var read;
      read, open := ReadSource(f);
      if read.Err? { return Err(NotFound), c; }
      c := Copied(open, Now(), read.value);
      r := Ok([sha256(read.value)]);
    }

    /** The three copies of one attempt. */
    method CopyAll() returns (ok: bool, ghost copies: map<File, Copy>, ghost t1: nat, ghost t2: nat)
      requires Valid()
      modifies this
      ensures Valid() && old(history) <= history
      ensures ok ==> FilesRead(history, copies, old(Now()), t1, t2, Now()) && copies[Database].Copied?
      ensures ok ==> snapshot == Written(copies)
      ensures Quiet(history, old(Now())) && Database in old(source) ==> ok && snapshot == ContentsOf(old(source))
    {
      hide Copies;
      copies, t1, t2 := map[], 0, 0;
      ghost var t0 := Now();
      ghost var c, d, e;
      ok, c := CopyFile(Database);
      if !ok { return; }
      t1 := Now();
      ghost var h1 := history;
      ok, d := CopyOptional(Wal);
      if !ok { return; }
      t2 := Now();
      ghost var h2 := history;
      ok, e := CopyOptional(Journal);
      if !ok { return; }
      CopiesLater(h1, history, Database, c, t0, t1);
      CopiesLater(h2, history, Wal, d, t1, t2);
      copies := map[Database := c, Wal := d, Journal := e];
      forall f ensures f in snapshot <==> f in Written(copies) {
        match f case Database => case Wal => case Journal =>
      }
      assert snapshot.Keys == Written(copies).Keys;
      forall f | f in snapshot ensures snapshot[f] == Written(copies)[f] {
        match f case Database => case Wal => case Journal =>
      }
      if Quiet(history, t0) {
        QuietFiles(history, copies, t0, t1, t2, Now());
      }
    }

    /** The source hashes of one attempt. */
    method HashAll(sha256: Bytes -> Bytes)
      returns (r: Result<seq<Bytes>, NotFound>, ghost hashes: map<File, Hashed>, ghost t1: nat, ghost t2: nat)
      requires Valid()
      modifies this`source, this`history
      ensures Valid() && old(history) <= history
      ensures r.Ok? ==> FilesRead(history, hashes, old(Now()), t1, t2, Now()) && r.value == Digests(hashes, sha256)
      ensures Quiet(history, old(Now())) ==> r == Ok(SnapshotDigests(ContentsOf(old(source)), sha256))
    {
      hide Copies, Digest;
      hashes, t1, t2 := map[], 0, 0;
      ghost var t0 := Now();
      var d, p := HashSource(Database, sha256);
      if d.Err? { return Err(NotFound), hashes, t1, t2; }
      t1 := Now();
      ghost var h1 := history;
      var w, q := HashSource(Wal, sha256);
      if w.Err? { return Err(NotFound), hashes, t1, t2; }
      t2 := Now();
      ghost var h2 := history;
      var j, s := HashSource(Journal, sha256);
      if j.Err? { return Err(NotFound), hashes, t1, t2; }
      CopiesLater(h1, history, Database, p, t0, t1);
      CopiesLater(h2, history, Wal, q, t1, t2);
      hashes := map[Database := p, Wal := q, Journal := s];
      r := Ok(d.value + w.value + j.value);
      if Quiet(history, t0) {
        QuietFiles(history, hashes, t0, t1, t2, Now());
        QuietDigests(history[t0], sha256, hashes);
      }
    }

    /** One round of the loop: true when the source did not visibly change and the copies match. */
    method Try(sha256: Bytes -> Bytes) returns (stable: bool, ghost a: Attempt)
      requires Valid()
      modifies this
      ensures Valid() && old(history) <= history
      ensures stable ==> Succeeds(history, a, sha256) && a.t[0] == old(Now()) && snapshot == Written(a.copies)
      ensures Quiet(history, old(Now())) && Database in old(source) ==> stable && snapshot == ContentsOf(old(source))
    {
      hide *;
      a := Attempt(map[], map[], map[], map[], []);
      Unfold();
      ghost var t0, h0 := Now(), history;
      var before, p, t1, t2 := ReadState();
      if before.Err? { return false, a; }
      Unfold();
      ghost var t3, h3 := Now(), history;
      var ok, copies, t4, t5 := CopyAll();
      QuietStep(h0, h3, history);
      if !ok { return false, a; }
      Unfold();
      ghost var t6, h6 := Now(), history;
      var hashes, q, t7, t8 := HashAll(sha256);
      QuietStep(h0, h3, history);
      QuietStep(h0, h6, history);
      if hashes.Err? { return false, a; }
      Unfold();
      ghost var t9, h9 := Now(), history;
      var digests := SnapshotDigests(snapshot, sha256);
      var after, s, t10, t11 := ReadState();
      QuietStep(h0, h3, history);
      QuietStep(h0, h6, history);
      QuietStep(h0, h9, history);
      if after.Err? { return false, a; }
      stable := before.value == after.value && hashes.value == digests;
      if stable {
        a := Attempt(p, copies, q, s, [t0, t1, t2, t3, t4, t5, t6, t7, t8, t9, t10, t11, Now()]);
        Assemble(h3, h6, h9, history, a, before.value, hashes.value, sha256);
      }
    }

    lemma Unfold()
      requires Valid()
      ensures history != [] && Now() == |history| - 1 && history[|history| - 1] == source
    {
    }

    /** `_copy_stable_sqlite_snapshot`: at most three attempts. A successful return leaves the files of
        a successful attempt, and so one instant of a source that keeps its two promises. A source that
        keeps still and has a database is copied as it is; giving up means that the source changed
        during each of the three attempts, or had no database. */
    method CopyStableSnapshot(sha256: Bytes -> Bytes) returns (r: Result<(), CopyError>, ghost a: Attempt, ghost cuts: seq<nat>)
      requires Valid()
      modifies this
      ensures Valid() && old(history) <= history
      ensures r.Ok? ==> Succeeds(history, a, sha256) && a.t[0] >= old(Now()) && snapshot == Written(a.copies)
      ensures r.Ok? ==> !RequiresRecovery(snapshot)
      ensures r.Ok? ==> !HasHotJournal(snapshot)
      ensures r.Ok? && AttemptTells(history, a) && SteadyAbsence(history) ==>
                exists i :: old(Now()) <= i < |history| && Holds(history[i], snapshot)
      ensures r == Err(RecoveryRequired) ==>
                Succeeds(history, a, sha256) && snapshot == Written(a.copies) && HasHotJournal(snapshot)
      ensures r == Err(SourceChanged) ==> |cuts| == 4 && cuts[0] == old(Now()) && DisturbedBetween(history, cuts)
      ensures Quiet(history, old(Now())) && Database in old(source) ==>
                && snapshot == ContentsOf(old(source))
                && r == if HasHotJournal(snapshot) then Err(RecoveryRequired) else Ok(())
    {
      hide Succeeds, AttemptTells, SteadyAbsence, Quiet, RequiresRecovery, HasHotJournal, DisturbedBetween;
      a, cuts := Attempt(map[], map[], map[], map[], []), [Now()];
      NoCuts(history, cuts);
      for round := 0 to 3
        invariant Valid() && old(history) <= history
        invariant |cuts| == round + 1 && cuts[0] == old(Now()) && cuts[round] == Now() && DisturbedBetween(history, cuts)
        invariant round > 0 && Database in old(source) ==> !Quiet(history, old(Now()))
        invariant round == 0 ==> source == old(source) && history == old(history)
      {
        var stable;
        ghost var from, before, base := Now(), history, source;
        stable, a := Try(sha256);
        QuietStep(old(history), before, history);
        if stable {
          HotIff(snapshot);
          if RequiresRecovery(snapshot) {
            return Err(RecoveryRequired), a, cuts;
          }
          SuccessIsInHistory(history, a, sha256);
          if AttemptTells(history, a) && SteadyAbsence(history) {
            CopiedOneInstant(history, a, sha256);
          }
          return Ok(()), a, cuts;
        }
        CutOnce(before, history, cuts, base);
        cuts := cuts + [Now()];
      }
      r := Err(SourceChanged);
    }
  }

  lemma SuccessIsInHistory(h: History, a: Attempt, sha256: Bytes -> Bytes)
    requires Succeeds(h, a, sha256)
    ensures |a.t| == 13 && a.t[0] <= a.t[3] < |h|
  {
  }

  lemma StateReadLater(h: History, k: History, probes: map<File, Probe>, t0: nat, t1: nat, t2: nat, t3: nat)
    requires StateRead(h, probes, t0, t1, t2, t3) && h <= k
    ensures StateRead(k, probes, t0, t1, t2, t3) && ReadSomewhere(k, probes)
    ensures forall f | f in FILES :: StatRead(k, f, probes[f]) == StatRead(h, f, probes[f])
  {
    hide StatRead;
    ProbesLater(h, k, Database, probes[Database], t0, t1);
    ProbesLater(h, k, Wal, probes[Wal], t1, t2);
    ProbesLater(h, k, Journal, probes[Journal], t2, t3);
  }

  lemma FilesReadLater(h: History, k: History, copies: map<File, Copy>, t0: nat, t1: nat, t2: nat, t3: nat)
    requires FilesRead(h, copies, t0, t1, t2, t3) && h <= k
    ensures FilesRead(k, copies, t0, t1, t2, t3)
  {
    hide Copies;
    CopiesLater(h, k, Database, copies[Database], t0, t1);
    CopiesLater(h, k, Wal, copies[Wal], t1, t2);
    CopiesLater(h, k, Journal, copies[Journal], t2, t3);
  }

  lemma StateReadInOrder(h: History, probes: map<File, Probe>, t0: nat, t1: nat, t2: nat, t3: nat)
    requires StateRead(h, probes, t0, t1, t2, t3)
    ensures t0 <= t1 <= t2 <= t3 < |h| && probes.Keys == FILES && ReadSomewhere(h, probes)
  {
  }

  lemma FilesReadInOrder(h: History, copies: map<File, Copy>, t0: nat, t1: nat, t2: nat, t3: nat)
    requires FilesRead(h, copies, t0, t1, t2, t3)
    ensures t0 <= t1 <= t2 <= t3 < |h| && copies.Keys == FILES
  {
  }

  lemma InOrder(t: seq<nat>)
    requires |t| == 13 && t[0] <= t[1] <= t[2] <= t[3] <= t[4] <= t[5] <= t[6]
    requires t[6] <= t[7] <= t[8] <= t[9] <= t[10] <= t[11] <= t[12]
    ensures forall i, j | 0 <= i < j < 13 :: t[i] <= t[j]
  {
  }

  /** The observations of the parts of one attempt, read in the history of the whole attempt. */
  lemma Assemble(h3: History, h6: History, h9: History, h: History, a: Attempt, state: StateTuple, digests: seq<Bytes>,
                 sha256: Bytes -> Bytes)
    requires h3 <= h6 <= h9 <= h && |a.t| == 13
    requires StateRead(h3, a.before, a.t[0], a.t[1], a.t[2], a.t[3])
    requires FilesRead(h6, a.copies, a.t[3], a.t[4], a.t[5], a.t[6]) && a.copies[Database].Copied?
    requires FilesRead(h9, a.hashes, a.t[6], a.t[7], a.t[8], a.t[9])
    requires StateRead(h, a.after, a.t[9], a.t[10], a.t[11], a.t[12])
    requires state == TupleOf(StatRead(h3, Database, a.before[Database]), StatRead(h3, Wal, a.before[Wal]),
                              StatRead(h3, Journal, a.before[Journal]))
    requires state == TupleOf(StatRead(h, Database, a.after[Database]), StatRead(h, Wal, a.after[Wal]),
                              StatRead(h, Journal, a.after[Journal]))
    requires digests == Digests(a.hashes, sha256) && digests == SnapshotDigests(Written(a.copies), sha256)
    ensures Succeeds(h, a, sha256)
  {
    hide StateRead, FilesRead, StatRead, TupleOf, Digests, ReadSomewhere, Written, SnapshotDigests;
    StateReadInOrder(h3, a.before, a.t[0], a.t[1], a.t[2], a.t[3]);
    FilesReadInOrder(h6, a.copies, a.t[3], a.t[4], a.t[5], a.t[6]);
    FilesReadInOrder(h9, a.hashes, a.t[6], a.t[7], a.t[8], a.t[9]);
    StateReadInOrder(h, a.after, a.t[9], a.t[10], a.t[11], a.t[12]);
    StateReadLater(h3, h, a.before, a.t[0], a.t[1], a.t[2], a.t[3]);
    FilesReadLater(h6, h, a.copies, a.t[3], a.t[4], a.t[5], a.t[6]);
    FilesReadLater(h9, h, a.hashes, a.t[6], a.t[7], a.t[8], a.t[9]);
    InOrder(a.t);
    WrittenDigests(a.copies, sha256);
    TuplesEqualByFile(StatRead(h3, Database, a.before[Database]), StatRead(h3, Wal, a.before[Wal]),
                      StatRead(h3, Journal, a.before[Journal]), StatRead(h, Database, a.after[Database]),
                      StatRead(h, Wal, a.after[Wal]), StatRead(h, Journal, a.after[Journal]));
    forall f | f in FILES ensures StatRead(h, f, a.before[f]) == StatRead(h, f, a.after[f]) {
      match f case Database => case Wal => case Journal =>
    }
  }
}
