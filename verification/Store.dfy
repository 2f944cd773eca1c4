/** The snapshot store: records in memory, an append-only journal file and a
    directory of derived files, opened by replay and repair (src/store.rs). */
module Store {
  import opened Basics
  import opened Text
  import opened Records
  import opened JournalLines
  import opened Journal
  import opened SnapshotIds
  import Utf8

  type Files = map<string, bytes>

  // ---- The snapshot files ---------------------------------------------------

  datatype Checked = Checked(ok: bool, files: Files)

  /** `verify_snapshot_files`: record by record, keep a matching file, write a
      missing one, stop at a mismatch. */
  function Verify(c: Service, files: Files, rs: seq<SnapshotRecord>): Checked
    decreases |rs|
  {
    if rs == [] then Checked(true, files)
    else
      var id, body := rs[0].snapshotId, BodyBytes(c, rs[0]);
      if id !in files then Verify(c, files[id := body], rs[1..])
      else if files[id] == body then Verify(c, files, rs[1..])
      else Checked(false, files)
  }

  /** Every record's file is there and is its rendered body. */
  predicate Materialized(c: Service, files: Files, rs: seq<SnapshotRecord>) {
    forall r <- rs :: r.snapshotId in files && files[r.snapshotId] == BodyBytes(c, r)
  }

  /** No file contradicts a record, and no two records claim one file. */
  predicate Consistent(c: Service, files: Files, rs: seq<SnapshotRecord>) {
    && (forall r <- rs :: r.snapshotId in files ==> files[r.snapshotId] == BodyBytes(c, r))
    && (forall r <- rs, s <- rs :: r.snapshotId == s.snapshotId ==> BodyBytes(c, r) == BodyBytes(c, s))
  }

  /** Only files of the records are added, and nothing is overwritten. */
  predicate Grown(before: Files, after: Files, rs: seq<SnapshotRecord>) {
    && (forall id <- before :: id in after && after[id] == before[id])
    && (forall id <- after :: id in before || exists r <- rs :: r.snapshotId == id)
  }

  /** Verification succeeds exactly when nothing contradicts the records; then
      every file is in place, and no existing one was touched. */
  lemma {:induction false} VerifyExactly(c: Service, files: Files, rs: seq<SnapshotRecord>)
    ensures var v := Verify(c, files, rs);
            && (v.ok <==> Consistent(c, files, rs))
            && (v.ok ==> Materialized(c, v.files, rs))
            && Grown(files, v.files, rs)
    decreases |rs|
  {
    hide BodyBytes;
    if rs == [] {
    } else {
      VerifyStep(c, files, rs);
      var r, rest := rs[0], rs[1..];
      assert rs == [r] + rest;
      assert forall s :: s in rs <==> s == r || s in rest;
      hide Verify, Consistent, Materialized, Grown;
      var id, body := r.snapshotId, BodyBytes(c, r);
      if id !in files {
        VerifyExactly(c, files[id := body], rest);
        AddingKeepsConsistent(c, files, r, rest, rs);
        FirstInPlace(c, files, files[id := body], Verify(c, files, rs).files, r, rest, rs);
      } else if files[id] == body {
        VerifyExactly(c, files, rest);
        MatchingKeepsConsistent(c, files, r, rest, rs);
        FirstInPlace(c, files, files, Verify(c, files, rs).files, r, rest, rs);
      } else {
        MismatchIsInconsistent(c, files, r, rs);
      }
    }
  }

  lemma AddingKeepsConsistent(c: Service, files: Files, r: SnapshotRecord, rest: seq<SnapshotRecord>,
      rs: seq<SnapshotRecord>)
    requires r.snapshotId !in files && forall s :: s in rs <==> s == r || s in rest
    ensures Consistent(c, files, rs) <==> Consistent(c, files[r.snapshotId := BodyBytes(c, r)], rest)
  {
    hide BodyBytes;
  }

  lemma MatchingKeepsConsistent(c: Service, files: Files, r: SnapshotRecord, rest: seq<SnapshotRecord>,
      rs: seq<SnapshotRecord>)
    requires r.snapshotId in files && files[r.snapshotId] == BodyBytes(c, r)
    requires forall s :: s in rs <==> s == r || s in rest
    ensures Consistent(c, files, rs) <==> Consistent(c, files, rest)
  {
    hide BodyBytes;
  }

  lemma MismatchIsInconsistent(c: Service, files: Files, r: SnapshotRecord, rs: seq<SnapshotRecord>)
    requires r in rs && r.snapshotId in files && files[r.snapshotId] != BodyBytes(c, r)
    ensures !Consistent(c, files, rs) && Grown(files, files, rs)
  {
    hide BodyBytes;
  }

  /** The first record's file is in place once those of the rest are. */
  lemma FirstInPlace(c: Service, files: Files, with: Files, after: Files, r: SnapshotRecord,
      rest: seq<SnapshotRecord>, rs: seq<SnapshotRecord>)
    requires forall s :: s in rs <==> s == r || s in rest
    requires r.snapshotId in with && with[r.snapshotId] == BodyBytes(c, r)
    requires with == files || (r.snapshotId !in files && with == files[r.snapshotId := BodyBytes(c, r)])
    requires Grown(with, after, rest)
    ensures Grown(files, after, rs)
    ensures Materialized(c, after, rest) ==> Materialized(c, after, rs)
  {
    hide BodyBytes;
    forall id | id in after && id !in files ensures exists s <- rs :: s.snapshotId == id {
      if id !in with {
        var s :| s in rest && s.snapshotId == id;
        assert s in rs;
      }
    }
  }

  lemma {:induction false} VerifyKeepsMaterialized(c: Service, files: Files, rs: seq<SnapshotRecord>)
    requires Materialized(c, files, rs)
    ensures Verify(c, files, rs) == Checked(true, files)
  {
    hide BodyBytes;
    if rs == [] {
    } else {
      VerifyKeepsMaterialized(c, files, rs[1..]);
    }
  }

  // ---- Opening --------------------------------------------------------------

  /** What survives a restart; no journal means there is no such file. */
  datatype Disk = Disk(journal: Option<bytes>, files: Files)

  /** Which of the two the store is configured with. */
  datatype Paths = Paths(journaled: bool, filed: bool)

  /** The records of a successful open, and the disk as the open leaves it. */
  datatype Opening = Opening(records: Option<seq<SnapshotRecord>>, disk: Disk)

  /** What replay finds; without a journal, nothing. */
  function Replayed(c: Service, p: Paths, d: Disk): Option<seq<SnapshotRecord>> {
    if p.journaled && d.journal.Some? then Replay(c, d.journal.value) else Some([])
  }

  /** Opening creates a missing journal. */
  function OpenedJournal(p: Paths, d: Disk): Option<bytes> {
    if p.journaled && d.journal.None? then Some([]) else d.journal
  }

  function Open(c: Service, p: Paths, d: Disk): Opening {
    var replayed := Replayed(c, p, d);
    if replayed.None? then Opening(None, d) else
    var journal := OpenedJournal(p, d);
    if !p.filed then Opening(replayed, Disk(journal, d.files)) else
    var v := Verify(c, d.files, replayed.value);
    Opening(if v.ok then replayed else None, Disk(journal, v.files))
  }

  /** What the journal promises a store of these records, if there is one. */
  predicate Journaled(c: Service, p: Paths, d: Disk, rs: seq<SnapshotRecord>) {
    if p.journaled && d.journal.Some? then ReplaysTo(c, Lines(d.journal.value), 0, rs) else rs == []
  }

  /** A store opens with given records exactly when the journal holds them, line by
      line, and no file contradicts them. Opening overwrites no file and no journal;
      it adds missing files, and a missing journal as an empty one. */
  lemma OpenExactly(c: Service, p: Paths, d: Disk, rs: seq<SnapshotRecord>)
    ensures var o := Open(c, p, d);
            && (o.records == Some(rs) <==> Journaled(c, p, d, rs) && (p.filed ==> Consistent(c, d.files, rs)))
            && (o.records == Some(rs) && p.filed ==>
                  Materialized(c, o.disk.files, rs) && Grown(d.files, o.disk.files, rs))
            && (d.journal.Some? || !p.journaled ==> o.disk.journal == d.journal)
            && (d.journal.None? && p.journaled ==> o.disk.journal == Some([]))
            && (forall id <- d.files :: id in o.disk.files && o.disk.files[id] == d.files[id])
  {
    hide Replay, Verify, Materialized, Consistent, ReplaysTo, Lines;
    if p.journaled && d.journal.Some? { ReplayExactly(c, d.journal.value, rs); }
    VerifyExactly(c, d.files, rs);
    var found := Replayed(c, p, d);
    if found.Some? { VerifyExactly(c, d.files, found.value); }
  }

  /** A second open finds the same records and changes nothing on the disk,
      whatever torn tail the first one kept. */
  lemma OpenIsIdempotent(c: Service, p: Paths, d: Disk)
    requires Open(c, p, d).records.Some?
    ensures Open(c, p, Open(c, p, d).disk) == Open(c, p, d)
    ensures p.filed ==> Materialized(c, Open(c, p, d).disk.files, Open(c, p, d).records.value)
    ensures d.journal.Some? ==> Open(c, p, d).disk.journal == d.journal
  {
    hide Replay, Verify, Materialized, Consistent, Grown;
    var rs := Open(c, p, d).records.value;
    VerifyExactly(c, d.files, rs);
    if p.filed { VerifyKeepsMaterialized(c, Open(c, p, d).disk.files, rs); }
    ReplayNothing(c);
  }

  lemma ReplayNothing(c: Service)
    ensures Replay(c, []) == Some([])
  {}

  // ---- Appending ------------------------------------------------------------

  datatype StoreError = JournalError | Conflict

  function AppendError(c: Service, rs: seq<SnapshotRecord>, r: SnapshotRecord): Option<StoreError> {
    if r.seqNo != |rs| then Some(Conflict)
    else if !DigestMatches(c, r) then Some(JournalError)
    else None
  }

  /** The disk after an append without error. */
  function Appended(c: Service, p: Paths, d: Disk, r: SnapshotRecord): Disk
    requires p.journaled ==> d.journal.Some?
  {
    Disk(if p.journaled then Some(d.journal.value + LineBytes(r)) else d.journal,
         if p.filed then d.files[r.snapshotId := BodyBytes(c, r)] else d.files)
  }

  // ---- Reads ----------------------------------------------------------------

  /** `get`: the first record with the id. */
  function Find(rs: seq<SnapshotRecord>, id: string): Option<SnapshotRecord> {
    if rs == [] then None else if rs[0].snapshotId == id then Some(rs[0]) else Find(rs[1..], id)
  }

  predicate Matches(r: SnapshotRecord, passportId: Option<string>, at: Option<i64>) {
    (passportId.Some? ==> r.passportId == passportId.value) && (at.Some? ==> r.notarizedAt <= at.value)
  }

  /** `list`: the matching records in sequencing order. */
  function Listed(rs: seq<SnapshotRecord>, passportId: Option<string>, at: Option<i64>): seq<SnapshotRecord> {
    if rs == [] then []
    else (if Matches(rs[0], passportId, at) then [rs[0]] else []) + Listed(rs[1..], passportId, at)
  }

  /** Records as the service creates them: numbered from 0, ids to match. */
  predicate Numbered(rs: seq<SnapshotRecord>) {
    forall i :: 0 <= i < |rs| ==> rs[i].seqNo == i && rs[i].snapshotId == SnapshotIdOf(rs[i].seqNo)
  }

  lemma {:induction false} FindFirst(rs: seq<SnapshotRecord>, id: string)
    ensures match Find(rs, id)
            case None => forall r <- rs :: r.snapshotId != id
            case Some(r) =>
              exists k :: && 0 <= k < |rs| && rs[k] == r && r.snapshotId == id
                          && forall j :: 0 <= j < k ==> rs[j].snapshotId != id
  {
    if rs == [] {
    } else {
      if rs[0].snapshotId == id {
        assert rs[0] == Find(rs, id).value;
      } else {
        FindFirst(rs[1..], id);
        assert rs == [rs[0]] + rs[1..];
        if Find(rs, id).Some? {
          var k :| 0 <= k < |rs| - 1 && rs[1..][k] == Find(rs, id).value && rs[1..][k].snapshotId == id
                   && forall j :: 0 <= j < k ==> rs[1..][j].snapshotId != id;
          assert rs[k + 1] == Find(rs, id).value;
          forall j | 0 <= j < k + 1 ensures rs[j].snapshotId != id {
            if j > 0 { assert rs[j] == rs[1..][j - 1]; }
          }
        }
      }
    }
  }

  /** Over service-created records the linear search finds record `k` for the
      id of `k`, and nothing for any other id. */
  lemma FindExactly(rs: seq<SnapshotRecord>, id: string, r: SnapshotRecord)
    requires Numbered(rs)
    ensures Find(rs, id) == Some(r) <==> exists k: u64 :: k < |rs| && id == SnapshotIdOf(k) && r == rs[k]
  {
    hide SnapshotIdOf;
    FindFirst(rs, id);
    forall k: u64 | k < |rs| && id == SnapshotIdOf(k) && r == rs[k] ensures Find(rs, id) == Some(r) {
      assert rs[k] in rs && rs[k].seqNo == k;
      var i :| 0 <= i < |rs| && rs[i] == Find(rs, id).value && rs[i].snapshotId == id;
      IdsAreInjective(k, rs[i].seqNo);
    }
    if Find(rs, id) == Some(r) {
      var i :| 0 <= i < |rs| && rs[i] == r && r.snapshotId == id;
      assert rs[i].seqNo == i;
      var k: u64 := rs[i].seqNo;
      assert k < |rs| && id == SnapshotIdOf(k) && r == rs[k];
    }
  }

  lemma ListedCons(r: SnapshotRecord, rs: seq<SnapshotRecord>, passportId: Option<string>, at: Option<i64>)
    ensures Listed([r] + rs, passportId, at) == (if Matches(r, passportId, at) then [r] else [])
        + Listed(rs, passportId, at)
  {
    hide Matches;
    assert ([r] + rs)[1..] == rs;
  }

  lemma {:induction false} ListedAppend(rs: seq<SnapshotRecord>, more: seq<SnapshotRecord>,
      passportId: Option<string>, at: Option<i64>)
    ensures Listed(rs + more, passportId, at) == Listed(rs, passportId, at) + Listed(more, passportId, at)
  {
    if rs == [] {
      assert rs + more == more;
    } else {
      var head, tail := rs[0], rs[1..];
      assert rs == [head] + tail;
      Assoc([head], tail, more);
      ListedCons(head, tail, passportId, at);
      ListedCons(head, tail + more, passportId, at);
      hide Listed, Matches;
      ListedAppend(tail, more, passportId, at);
      var first := if Matches(head, passportId, at) then [head] else [];
      Assoc(first, Listed(tail, passportId, at), Listed(more, passportId, at));
    }
  }

  /** Exactly the records of the passport, where one is given, that were notarized
      by the instant, where one is given; each as often as it is stored. */
  lemma {:induction false} ListedExactly(rs: seq<SnapshotRecord>, passportId: Option<string>, at: Option<i64>,
      r: SnapshotRecord)
    ensures multiset(Listed(rs, passportId, at))[r]
         == if (passportId == None || passportId == Some(r.passportId)) && (at == None || r.notarizedAt <= at.value)
            then multiset(rs)[r] else 0
  {
    if rs == [] {
    } else {
      var head, tail := rs[0], rs[1..];
      assert rs == [head] + tail;
      ListedCons(head, tail, passportId, at);
      hide Listed;
      ListedExactly(tail, passportId, at, r);
    }
  }

  lemma {:induction false} ListedNone(rs: seq<SnapshotRecord>, passportId: Option<string>, at: i64)
    requires forall r <- rs :: r.notarizedAt > at
    ensures Listed(rs, passportId, Some(at)) == []
  {
    if rs == [] {
    } else {
      assert rs[0] in rs;
      ListedNone(rs[1..], passportId, at);
    }
  }

  predicate NonDecreasing(rs: seq<SnapshotRecord>) {
    forall i, j :: 0 <= i < j < |rs| ==> rs[i].notarizedAt <= rs[j].notarizedAt
  }

  /** With instants in order, the catalogue as of any instant is a prefix of the
      records: those notarized by then, and no others. */
  lemma {:induction false} ListedIsPrefix(rs: seq<SnapshotRecord>, at: i64) returns (n: nat)
    requires NonDecreasing(rs)
    ensures n <= |rs| && Listed(rs, None, Some(at)) == rs[..n]
    ensures forall i :: 0 <= i < |rs| ==> (rs[i].notarizedAt <= at <==> i < n)
  {
    if rs == [] || rs[0].notarizedAt > at {
      n := 0;
      forall r | r in rs ensures r.notarizedAt > at {
        var i :| 0 <= i < |rs| && rs[i] == r;
      }
      ListedNone(rs, None, at);
    } else {
      n := ListedIsPrefix(rs[1..], at);
      n := n + 1;
      assert rs[..n] == [rs[0]] + rs[1..][..n - 1];
      forall i | 0 <= i < |rs| ensures rs[i].notarizedAt <= at <==> i < n {
        if i > 0 { assert rs[i] == rs[1..][i - 1]; }
      }
    }
  }

  /** Every as-of catalogue is a prefix of the records. */
  ghost predicate AllPrefixes(rs: seq<SnapshotRecord>) {
    forall at: i64 :: PrefixAsOf(rs, at)
  }

  ghost predicate PrefixAsOf(rs: seq<SnapshotRecord>, at: i64) {
    exists n: nat :: n <= |rs| && Listed(rs, None, Some(at)) == rs[..n]
  }

  /** That is so exactly when their instants never decrease. */
  lemma PrefixesExactlyInOrder(rs: seq<SnapshotRecord>)
    ensures AllPrefixes(rs) <==> NonDecreasing(rs)
  {
    if NonDecreasing(rs) {
      forall at: i64 ensures PrefixAsOf(rs, at) {
        var n := ListedIsPrefix(rs, at);
      }
    } else {
      var i, j :| 0 <= i < j < |rs| && rs[i].notarizedAt > rs[j].notarizedAt;
      var at: i64 := rs[j].notarizedAt;
      if PrefixAsOf(rs, at) {
        var n: nat :| n <= |rs| && Listed(rs, None, Some(at)) == rs[..n];
        NoPrefix(rs, i, j, n);
      }
    }
  }

  /** A prefix either reaches the later instant or misses the earlier one. */
  lemma NoPrefix(rs: seq<SnapshotRecord>, i: nat, j: nat, n: nat)
    requires i < j < |rs| && rs[i].notarizedAt > rs[j].notarizedAt && n <= |rs|
    ensures Listed(rs, None, Some(rs[j].notarizedAt)) != rs[..n]
  {
    hide Listed;
    var at := rs[j].notarizedAt;
    ListedExactly(rs, None, Some(at), rs[i]);
    ListedExactly(rs, None, Some(at), rs[j]);
    if n > i {
      assert rs[..n][i] == rs[i];
      assert rs[i] in multiset(rs[..n]);
    } else {
      assert rs == rs[..n] + rs[n..] && rs[n..][j - n] == rs[j];
      assert multiset(rs) == multiset(rs[..n]) + multiset(rs[n..]);
      assert rs[j] in multiset(rs[n..]);
    }
  }

  // ---- The store itself -----------------------------------------------------

  class JournalFile {
    /** None where the file does not exist. */
    var content: Option<bytes>
  }

  class SnapshotDir {
    var files: Files
  }

  ghost function OnDisk(journal: JournalFile?, dir: SnapshotDir?): Disk
    reads journal, dir
  {
    Disk(if journal == null then None else journal.content, if dir == null then map[] else dir.files)
  }

  ghost function PathsOf(journal: JournalFile?, dir: SnapshotDir?): Paths {
    Paths(journal != null, dir != null)
  }

  class SnapshotStore {
    var records: seq<SnapshotRecord>
    var journal: JournalFile?
    var snapshotDir: SnapshotDir?

    constructor (dir: SnapshotDir?)
      ensures records == [] && journal == null && snapshotDir == dir
    {
      records := [];
      journal := null;
      snapshotDir := dir;
    }

    /** An opened journal exists. */
    ghost predicate Valid()
      reads this, journal
    {
      journal != null ==> journal.content.Some?
    }

    /** On an integrity failure there is no store. */
    static method OpenStore(c: Service, journal: JournalFile?, dir: SnapshotDir?) returns (store: SnapshotStore?)
      modifies journal, dir
      ensures var o := Open(c, PathsOf(journal, dir), old(OnDisk(journal, dir)));
              && OnDisk(journal, dir) == o.disk
              && (store == null <==> o.records.None?)
              && (store != null ==> fresh(store) && store.Valid() && o.records == Some(store.records)
                                    && store.journal == journal && store.snapshotDir == dir)
    {
      hide ReplayLines, Verify, Lines;
      var s := new SnapshotStore(dir);
      if journal != null {
        if journal.content.Some? {
          var ok := s.ReplayJournal(c, journal.content.value);
          if !ok { return null; }
        } else {
          journal.content := Some([]);
        }
        s.journal := journal;
      }
      if dir != null {
        var ok := s.VerifySnapshotFiles(c);
        if !ok { return null; }
      }
      return s;
    }

    /** The lookahead loop: a line is last when the next read finds none. */
    method ReplayJournal(c: Service, content: bytes) returns (ok: bool)
      requires records == []
      modifies this
      ensures journal == old(journal) && snapshotDir == old(snapshotDir)
      ensures ok <==> Replay(c, content).Some?
      ensures ok ==> Replay(c, content) == Some(records)
    {
      hide Lines, DecodeLine, DigestMatches, IsBlank, ReplayLines;
      var reader := new LineReader(content);
      assert content[0..] == content;
      var pending := reader.Next();
      ghost var ahead := Lines(content);
      PrependNone(ReplayLines(c, ahead, 0));
      if pending.Some? && pending.value.None? {
        UnreadableAhead(c, ahead, 0);
        return false;
      }
      while pending.Some?
        invariant fresh(reader) && reader.content == content && reader.pos <= |content|
        invariant pending.Some? ==> pending.value.Some?
        invariant ahead == if pending.None? then [] else [pending.value] + Lines(content[reader.pos..])
        invariant Replay(c, content) == PrependAll(records, ReplayLines(c, ahead, |records|))
        invariant journal == old(journal) && snapshotDir == old(snapshotDir)
        decreases |ahead|
      {
        var line := pending.value.value;
        var next := reader.Next();
        ghost var rest := ahead[1..];
        assert rest == if next.None? then [] else [next.value] + Lines(content[reader.pos..]);
        ReplayStep(c, ahead, |records|);
        if next.Some? && next.value.None? {
          UnreadableAhead(c, ahead, |records|);
          return false;
        }
        match DecodeLine(line) {
          case Some(r) =>
            if r.seqNo != |records| { return false; }
            if !DigestMatches(c, r) { return false; }
            PrependTwice(records, [r], ReplayLines(c, rest, |records| + 1));
            records := records + [r];
          case None =>
            if next.Some? || IsBlank(line) { return false; }
            ReplayEmpty(c, |records|);
        }
        pending := next;
        ahead := rest;
      }
      ReplayEmpty(c, |records|);
      assert records + [] == records;
      return true;
    }

    method VerifySnapshotFiles(c: Service) returns (ok: bool)
      requires snapshotDir != null
      modifies snapshotDir
      ensures Checked(ok, snapshotDir.files) == Verify(c, old(snapshotDir.files), records)
    {
      hide BodyBytes, Verify;
      for i := 0 to |records|
        invariant Verify(c, old(snapshotDir.files), records) == Verify(c, snapshotDir.files, records[i..])
      {
        VerifyStep(c, snapshotDir.files, records[i..]);
        assert records[i..][1..] == records[i + 1..];
        var id, body := records[i].snapshotId, BodyBytes(c, records[i]);
        if id in snapshotDir.files {
          if snapshotDir.files[id] != body { return false; }
        } else {
          snapshotDir.files := snapshotDir.files[id := body];
        }
      }
      VerifyStep(c, snapshotDir.files, []);
      return true;
    }

    /** The clock is read by the caller. */
    method Reserve(now: i64) returns (n: u64, at: i64)
      requires |records| < U64_LIMIT
      ensures n == |records| && at == now
    {
      return |records|, now;
    }

    method AppendSnapshot(c: Service, r: SnapshotRecord) returns (e: Option<StoreError>)
      requires Valid()
      modifies this, journal, snapshotDir
      ensures Valid() && journal == old(journal) && snapshotDir == old(snapshotDir)
      ensures e == AppendError(c, old(records), r)
      ensures e == Some(Conflict) <==> r.seqNo != |old(records)|
      ensures e == Some(JournalError) <==>
              r.seqNo == |old(records)| && c.sha256(BodyBytes(c, r)) != r.bodyDigest
      ensures e.Some? ==> records == old(records) && OnDisk(journal, snapshotDir) == old(OnDisk(journal, snapshotDir))
      ensures e.None? ==> records == old(records) + [r]
      ensures e.None? && journal != null ==>
                journal.content == Some(old(journal.content).value + (Utf8.Encode(Line(r)) + [10]))
      ensures e.None? && snapshotDir != null ==>
                snapshotDir.files == old(snapshotDir.files)[r.snapshotId := BodyBytes(c, r)]
      ensures e.None? ==>
                OnDisk(journal, snapshotDir)
                == Appended(c, PathsOf(journal, snapshotDir), old(OnDisk(journal, snapshotDir)), r)
    {
      hide BodyBytes, Line, Utf8.Encode;
      if r.seqNo != |records| { return Some(Conflict); }
      if !DigestMatches(c, r) { return Some(JournalError); }
      if journal != null {
        journal.content := Some(journal.content.value + LineBytes(r));
      }
      if snapshotDir != null {
        snapshotDir.files := snapshotDir.files[r.snapshotId := BodyBytes(c, r)];
      }
      records := records + [r];
      return None;
    }

    function Get(id: string): Option<SnapshotRecord>
      reads this
    {
      Find(records, id)
    }
  }

  // ---- Steps of the replay loop ---------------------------------------------

  lemma ReplayStep(c: Service, lines: seq<Option<string>>, n: nat)
    requires lines != [] && lines[0].Some?
    ensures ReplayLines(c, lines, n)
         == match DecodeLine(lines[0].value)
            case None => if |lines| == 1 && !IsBlank(lines[0].value) then Some([]) else None
            case Some(r) => if r.seqNo != n || !DigestMatches(c, r) then None
              else PrependAll([r], ReplayLines(c, lines[1..], n + 1))
  {
    hide DecodeLine, DigestMatches, IsBlank, PrependAll;
  }

  lemma ReplayEmpty(c: Service, n: nat)
    ensures ReplayLines(c, [], n) == Some([])
  {}

  /** A line that is not UTF-8 fails the replay from its line or the one before. */
  lemma UnreadableAhead(c: Service, lines: seq<Option<string>>, n: nat)
    requires (|lines| >= 1 && lines[0].None?) || (|lines| >= 2 && lines[1].None?)
    ensures ReplayLines(c, lines, n) == None
  {
    hide DecodeLine, DigestMatches, IsBlank;
    if lines[0].Some? { assert lines[1..][0].None?; assert ReplayLines(c, lines[1..], n + 1) == None; }
  }

  lemma VerifyStep(c: Service, files: Files, rs: seq<SnapshotRecord>)
    ensures Verify(c, files, rs)
         == if rs == [] then Checked(true, files)
            else
              var id, body := rs[0].snapshotId, BodyBytes(c, rs[0]);
              if id !in files then Verify(c, files[id := body], rs[1..])
              else if files[id] == body then Verify(c, files, rs[1..])
              else Checked(false, files)
  {
    hide BodyBytes;
  }
}
