/** `diff_table`: the net delta of the events between two transactions is the difference of the two
    snapshots, whatever commits interleave with its queries. */
module Diff {
  import opened CatalogTypes
  import opened Limits
  import opened History
  import opened Commits
  import opened Views
  import opened Readers
  import opened Events
  import opened Delta
  import opened Listings

  datatype TableDelta = TableDelta(
    from: TxnId, to: TxnId, added: map<Uuid, FileRow>, removed: map<Uuid, FileRow>,
    newSchema: Option<SchemaView>, newProperties: Option<Properties>)

  function Project(from: TxnId, to: TxnId, events: seq<TxnEvent>, a: View, b: View): TableDelta {
    var net := NetOf(ChangesOf(events));
    TableDelta(from, to, net.added, net.removed,
               if a.schema.uuid != b.schema.uuid then Some(b.schema) else None,
               if a.properties != b.properties then Some(b.properties) else None)
  }

  /** The outcomes `diff_table` may return: a listing and two reads. The first read starts no earlier than the
      listing's walk and the second no earlier than the first; the order of the code's queries is one such. */
  ghost predicate IsDiff(obs: Schedule, env: Env, ident: TableIdent, from: TxnId, to: TxnId, r: Result<TableDelta>) {
    exists listing :: IsListing(obs, ident, Some(from), to, listing)
      && IsDiffAfter(obs, env, ident, from, to, listing, r)
  }

  ghost predicate IsDiffAfter(
    obs: Schedule, env: Env, ident: TableIdent, from: TxnId, to: TxnId, listing: Result<seq<TxnEvent>>,
    r: Result<TableDelta>)
  {
    if listing.Err? then r == Err(listing.error) else
      exists q: nat, a :: 2 <= q && IsRead(Shift(obs, q), env, ident, Some(from), a)
                          && IsDiffRead(obs, env, ident, from, to, listing.value, q, a, r)
  }

  ghost predicate IsDiffRead(
    obs: Schedule, env: Env, ident: TableIdent, from: TxnId, to: TxnId, events: seq<TxnEvent>, q: nat, a: Result<View>,
    r: Result<TableDelta>)
  {
    if a.Err? then r == Err(a.error) else
      exists p: nat, b :: q <= p && IsRead(Shift(obs, p), env, ident, Some(to), b)
                          && r == if b.Err? then Err(b.error) else Ok(Project(from, to, events, a.value, b.value))
  }

  // ---------- the changes of one transaction ----------

  ghost predicate IsLog(files: map<Uuid, FileRow>, t: TxnId, changes: seq<FileChange>) {
    exists n :: 0 <= n <= |changes| && LogSplit(files, t, changes, n)
  }

  ghost predicate LogSplit(files: map<Uuid, FileRow>, t: TxnId, changes: seq<FileChange>, n: nat)
    requires n <= |changes|
  {
    Lists(AddedIn(files, t), Added, t, changes[..n]) && Lists(RemovedIn(files, t), Removed, t, changes[n..])
  }

  /** The change stands for a row of `files`. */
  predicate RecordsRow(files: map<Uuid, FileRow>, t: TxnId, c: FileChange) {
    && c.uuid in files && c.file == files[c.uuid]
    && if c.kind.Added? then c.file.added == t else c.file.removed == Some(t)
  }

  lemma LogRecords(files: map<Uuid, FileRow>, t: TxnId, changes: seq<FileChange>)
    requires IsLog(files, t, changes)
    ensures WellFormed(changes)
    ensures forall i :: 0 <= i < |changes| ==> RecordsRow(files, t, changes[i])
    ensures forall u :: u in files && files[u].added == t ==> Names(changes, Added, u)
  {
    hide LogSplit, RecordsRow, WellFormed, Names;
    var n :| 0 <= n <= |changes| && LogSplit(files, t, changes, n);
    SplitWellFormed(files, t, changes, n);
    forall i | 0 <= i < |changes| ensures RecordsRow(files, t, changes[i]) { SplitRecords(files, t, changes, n, i); }
    forall u | u in files && files[u].added == t ensures Names(changes, Added, u) {
      SplitNames(files, t, changes, n, u);
    }
  }

  lemma SplitRecords(files: map<Uuid, FileRow>, t: TxnId, changes: seq<FileChange>, n: nat, i: nat)
    requires n <= |changes| && LogSplit(files, t, changes, n) && i < |changes|
    ensures changes[i].kind == (if i < n then Added else Removed) && RecordsRow(files, t, changes[i])
  {
    var head, tail := changes[..n], changes[n..];
    if i < n { assert changes[i] == head[i]; } else { assert changes[i] == tail[i - n]; }
  }

  lemma SplitWellFormed(files: map<Uuid, FileRow>, t: TxnId, changes: seq<FileChange>, n: nat)
    requires n <= |changes| && LogSplit(files, t, changes, n)
    ensures WellFormed(changes)
  {
    hide RecordsRow, AddedIn, RemovedIn;
    var head, tail := changes[..n], changes[n..];
    forall i, j | 0 <= i < j < n ensures changes[i].uuid != changes[j].uuid { assert head[i].uuid != head[j].uuid; }
    forall i, j | n <= i < j < |changes| ensures changes[i].uuid != changes[j].uuid {
      assert tail[i - n].uuid != tail[j - n].uuid;
    }
    forall i | 0 <= i < |changes| ensures changes[i].kind == if i < n then Added else Removed {
      SplitRecords(files, t, changes, n, i);
    }
  }

  lemma SplitNames(files: map<Uuid, FileRow>, t: TxnId, changes: seq<FileChange>, n: nat, u: Uuid)
    requires n <= |changes| && LogSplit(files, t, changes, n) && u in files && files[u].added == t
    ensures Names(changes, Added, u)
  {
    var head := changes[..n];
    assert u in AddedIn(files, t) && ListsFile(head, u);
    var i :| 0 <= i < n && head[i].uuid == u;
    assert changes[i].kind.Added? && changes[i].uuid == u;
  }

  lemma {:induction false} ReplayConcat(xs: seq<FileChange>, ys: seq<FileChange>, live: set<Uuid>)
    ensures Replay(xs + ys, live) == Replay(ys, Replay(xs, live))
    decreases |ys|
  {
    if |ys| == 0 {
      assert xs + ys == xs;
    } else {
      var n := |ys| - 1;
      assert (xs + ys)[..|xs| + n] == xs + ys[..n] && (xs + ys)[|xs| + n] == ys[n];
      ReplayConcat(xs, ys[..n], live);
    }
  }

  lemma {:induction false} ReplayOneKind(changes: seq<FileChange>, kind: ChangeKind, live: set<Uuid>)
    requires forall i :: 0 <= i < |changes| ==> changes[i].kind == kind
    ensures var named := set i | 0 <= i < |changes| :: changes[i].uuid;
            Replay(changes, live) == if kind.Added? then live + named else live - named
    decreases |changes|
  {
    if |changes| > 0 {
      var n := |changes| - 1;
      ReplayOneKind(changes[..n], kind, live);
      var before, all := set i | 0 <= i < n :: changes[..n][i].uuid, set i | 0 <= i < |changes| :: changes[i].uuid;
      assert all == before + {changes[n].uuid} by {
        forall u | u in all ensures u in before + {changes[n].uuid} {
          var i :| 0 <= i < |changes| && changes[i].uuid == u;
          if i < n { assert changes[..n][i].uuid == u; }
        }
        forall i | 0 <= i < n ensures changes[..n][i].uuid in all { assert changes[..n][i] == changes[i]; }
      }
    }
  }

  lemma ListedKeys(rows: map<Uuid, FileRow>, kind: ChangeKind, t: TxnId, list: seq<FileChange>)
    requires Lists(rows, kind, t, list)
    ensures (set i | 0 <= i < |list| :: list[i].uuid) == rows.Keys
  {
    forall u | u in rows ensures u in set i | 0 <= i < |list| :: list[i].uuid { assert ListsFile(list, u); }
  }

  /** Replaying one transaction's log adds what it added, then drops what it removed. */
  lemma LogReplay(files: map<Uuid, FileRow>, t: TxnId, changes: seq<FileChange>, live: set<Uuid>)
    requires IsLog(files, t, changes)
    ensures Replay(changes, live) == live + AddedIn(files, t).Keys - RemovedIn(files, t).Keys
  {
    var n :| 0 <= n <= |changes| && LogSplit(files, t, changes, n);
    var head, tail := changes[..n], changes[n..];
    assert changes == head + tail;
    ReplayConcat(head, tail, live);
    ReplayOneKind(head, Added, live);
    ReplayOneKind(tail, Removed, Replay(head, live));
    ListedKeys(AddedIn(files, t), Added, t, head);
    ListedKeys(RemovedIn(files, t), Removed, t, tail);
  }

  // ---------- the changes of a range of the chain ----------

  predicate InRange(c: seq<TxnId>, t: TxnId, lo: nat, hi: nat) {
    t in c && lo <= Index(c, t) < hi
  }

  ghost predicate InChronicle(files: map<Uuid, FileRow>, c: seq<TxnId>, lo: nat, hi: nat, ch: FileChange) {
    && ch.uuid in files && ch.file == files[ch.uuid]
    && if ch.kind.Added? then InRange(c, ch.file.added, lo, hi)
       else ch.file.removed.Some? && InRange(c, ch.file.removed.value, lo, hi)
  }

  /** The changes of chain positions lo..hi. */
  ghost predicate Chronicle(files: map<Uuid, FileRow>, c: seq<TxnId>, lo: nat, hi: nat, changes: seq<FileChange>) {
    && WellFormed(changes)
    && (forall i :: 0 <= i < |changes| ==> InChronicle(files, c, lo, hi, changes[i]))
    && (forall u :: u in files && InRange(c, files[u].added, lo, hi) ==> Names(changes, Added, u))
  }

  lemma NamesGrow(xs: seq<FileChange>, ys: seq<FileChange>, kind: ChangeKind, u: Uuid)
    requires Names(xs, kind, u) || Names(ys, kind, u)
    ensures Names(xs + ys, kind, u)
  {
    var all := xs + ys;
    if Names(xs, kind, u) {
      var i :| 0 <= i < |xs| && xs[i].kind == kind && xs[i].uuid == u;
      assert all[i] == xs[i];
    } else {
      var i :| 0 <= i < |ys| && ys[i].kind == kind && ys[i].uuid == u;
      assert all[|xs| + i] == ys[i];
    }
  }

  /** The next transaction's log continues the chronicle: no file is added twice, removed twice, or added
      after its removal. */
  lemma ChronicleStep(
    files: map<Uuid, FileRow>, c: seq<TxnId>, lo: nat, k: nat, before: seq<FileChange>, log: seq<FileChange>)
    requires Distinct(c) && lo <= k < |c| && Chronicle(files, c, lo, k, before) && IsLog(files, c[k], log)
    requires forall u :: u in files ==> FileOk(files[u], c)
    ensures Chronicle(files, c, lo, k + 1, before + log)
  {
    var t, all := c[k], before + log;
    hide IsLog, FileOk;
    LogRecords(files, t, log);
    assert Index(c, t) == k;
    forall i | 0 <= i < |all| ensures InChronicle(files, c, lo, k + 1, all[i]) {
      if i < |before| {
        assert all[i] == before[i];
      } else {
        assert all[i] == log[i - |before|] && RecordsRow(files, t, log[i - |before|]);
      }
    }
    forall i, j | 0 <= i < j < |all| && all[i].uuid == all[j].uuid ensures all[i].kind.Added? && all[j].kind.Removed? {
      LogContinues(files, c, lo, k, before, log, i, j);
    }
    forall u | u in files && InRange(c, files[u].added, lo, k + 1) ensures Names(all, Added, u) {
      if Index(c, files[u].added) == k {
        assert files[u].added == t;
      } else {
        assert InRange(c, files[u].added, lo, k);
      }
      NamesGrow(before, log, Added, u);
    }
  }

  lemma LogContinues(
    files: map<Uuid, FileRow>, c: seq<TxnId>, lo: nat, k: nat, before: seq<FileChange>, log: seq<FileChange>, i: nat,
    j: nat)
    requires Distinct(c) && lo <= k < |c| && Chronicle(files, c, lo, k, before) && WellFormed(log)
    requires forall i :: 0 <= i < |log| ==> RecordsRow(files, c[k], log[i])
    requires forall u :: u in files ==> FileOk(files[u], c)
    requires i < j < |before + log| && (before + log)[i].uuid == (before + log)[j].uuid
    ensures (before + log)[i].kind.Added? && (before + log)[j].kind.Removed?
  {
    var all := before + log;
    assert Index(c, c[k]) == k;
    if j < |before| {
      assert all[i] == before[i] && all[j] == before[j];
    } else if |before| <= i {
      assert all[i] == log[i - |before|] && all[j] == log[j - |before|];
    } else {
      assert InChronicle(files, c, lo, k, before[i]) && RecordsRow(files, c[k], log[j - |before|]);
      assert FileOk(files[before[i].uuid], c);
    }
  }

  /** The changes of any range of the chain are a chronicle, and replaying them leads from the files live
      before the range to those live at its end. */
  lemma {:induction false} RangeChanges(
    files: map<Uuid, FileRow>, c: seq<TxnId>, lo: nat, events: seq<TxnEvent>)
    requires Distinct(c) && lo + |events| <= |c| && (forall u :: u in files ==> FileOk(files[u], c))
    requires forall i :: 0 <= i < |events| ==> IsLog(files, c[lo + i], events[i].changes)
    ensures Chronicle(files, c, lo, lo + |events|, ChangesOf(events))
    ensures Replay(ChangesOf(events), ReplayTxns(files, c, lo)) == ReplayTxns(files, c, lo + |events|)
    decreases |events|
  {
    hide IsLog, FileOk, Chronicle;
    if |events| > 0 {
      var n := |events| - 1;
      RangeChanges(files, c, lo, events[..n]);
      ChronicleStep(files, c, lo, lo + n, ChangesOf(events[..n]), events[n].changes);
      ReplayConcat(ChangesOf(events[..n]), events[n].changes, ReplayTxns(files, c, lo));
      LogReplay(files, c[lo + n], events[n].changes, ReplayTxns(files, c, lo + n));
    } else {
      EmptyChronicle(files, c, lo);
    }
  }

  lemma EmptyChronicle(files: map<Uuid, FileRow>, c: seq<TxnId>, lo: nat)
    ensures Chronicle(files, c, lo, lo, [])
  {
  }

  /** A chronicle can start from the files live before it. */
  lemma ChronicleStarts(files: map<Uuid, FileRow>, c: seq<TxnId>, lo: nat, hi: nat, changes: seq<FileChange>)
    requires Distinct(c) && 0 < lo <= hi <= |c| && Chronicle(files, c, lo, hi, changes)
    requires forall u :: u in files ==> FileOk(files[u], c)
    ensures StartsFrom(changes, VisibleAt(files, c, lo - 1).Keys)
  {
    forall i | 0 <= i < |changes|
      ensures if changes[i].kind.Added? then changes[i].uuid !in VisibleAt(files, c, lo - 1)
              else
                || changes[i].uuid in VisibleAt(files, c, lo - 1)
                || exists j :: 0 <= j < i && changes[j].uuid == changes[i].uuid
    {
      var u := changes[i].uuid;
      assert InChronicle(files, c, lo, hi, changes[i]) && FileOk(files[u], c);
      if changes[i].kind.Removed? && u !in VisibleAt(files, c, lo - 1) {
        assert InRange(c, files[u].added, lo, hi);
        var j :| 0 <= j < |changes| && changes[j].kind.Added? && changes[j].uuid == u;
        assert j < i;
      }
    }
  }

  /** Diff exactness on one state: the net delta of the events after position i up to position j is the
      difference of the two snapshots. */
  lemma RangeIsDifference(s: Slice, h: Hist, i: nat, j: nat, events: seq<TxnEvent>)
    requires FilesOk(s, h) && Distinct(h.chain) && i < j < |h.chain| && |events| == j - i
    requires forall k :: 0 <= k < |events| ==> IsLog(s.files, h.chain[i + 1 + k], events[k].changes)
    ensures var net, a, b := NetOf(ChangesOf(events)), VisibleAt(s.files, h.chain, i), VisibleAt(s.files, h.chain, j);
            && net.added.Keys == b.Keys - a.Keys && net.removed.Keys == a.Keys - b.Keys
            && (forall u :: u in net.added ==> net.added[u] == s.files[u])
            && (forall u :: u in net.removed ==> net.removed[u] == s.files[u])
  {
    hide IsLog, FileOk, StartsFrom, VisibleAt, InRange, WellFormed, InChronicle, Names, ReplayTxns, NetOf, Replay;
    var changes := ChangesOf(events);
    RangeChanges(s.files, h.chain, i + 1, events);
    ChronicleStarts(s.files, h.chain, i + 1, j + 1, changes);
    VisibleIsReplay(s, h, i);
    VisibleIsReplay(s, h, j);
    NetIsDifference(changes, VisibleAt(s.files, h.chain, i).Keys);
    NetRows(s.files, h.chain, i + 1, j + 1, changes);
  }

  lemma NetRows(files: map<Uuid, FileRow>, c: seq<TxnId>, lo: nat, hi: nat, changes: seq<FileChange>)
    requires Chronicle(files, c, lo, hi, changes)
    ensures forall u :: u in NetOf(changes).added ==> u in files && NetOf(changes).added[u] == files[u]
    ensures forall u :: u in NetOf(changes).removed ==> u in files && NetOf(changes).removed[u] == files[u]
  {
    hide InRange, NetOf, WellFormed, OnFile;
    NetDisjoint(changes);
    forall u | MarkOf(NetOf(changes), u) != Unmarked
      ensures u in files && MarkOf(NetOf(changes), u) in {Addition(files[u]), Removal(files[u])}
    {
      NetContents(changes, u);
      var last := OnFile(changes, u)[|OnFile(changes, u)| - 1];
      OnFileMember(changes, u, |OnFile(changes, u)| - 1);
      var i :| 0 <= i < |changes| && changes[i] == last;
      assert InChronicle(files, c, lo, hi, changes[i]);
    }
    forall u | u in NetOf(changes).removed ensures u in files && NetOf(changes).removed[u] == files[u] {
      assert MarkOf(NetOf(changes), u) == Removal(NetOf(changes).removed[u]);
    }
    forall u | u in NetOf(changes).added ensures u in files && NetOf(changes).added[u] == files[u] {
      assert MarkOf(NetOf(changes), u) == Addition(NetOf(changes).added[u]);
    }
  }

  // ---------- listings and deltas ----------

  /** An atomic listing's events are the logs of its transactions. */
  lemma EventsAreLogs(db: Db, ident: TableIdent, txns: seq<TxnId>, events: seq<TxnEvent>)
    requires ident in db.tables && IsEventList(Still(db), 0, db.tables[ident].uuid, txns, Ok(events))
    ensures |events| == |txns|
    ensures forall k :: 0 <= k < |events| ==> IsLog(SliceOf(db, ident).files, txns[k], events[k].changes)
  {
    var s, table := SliceOf(db, ident), db.tables[ident].uuid;
    forall k | 0 <= k < |events| ensures IsLog(s.files, txns[k], events[k].changes) {
      assert EventAt(Still(db), 0, table, txns, events, k);
      var changes := events[k].changes;
      var n :| 0 <= n <= |changes| && Lists(AddedIn(s.files, txns[k]), Added, txns[k], changes[..n])
               && Lists(RemovedIn(s.files, txns[k]), Removed, txns[k], changes[n..]);
      assert LogSplit(s.files, txns[k], changes, n);
    }
  }

  /** Replaying a listing from the beginning gives the files visible at its target. */
  lemma GenesisReplay(db: Db, hs: map<TableIdent, Hist>, ident: TableIdent, to: TxnId, events: seq<TxnEvent>)
    requires TableOk(db, hs, ident) && IsListing(Still(db), ident, None, to, Ok(events))
    ensures to in hs[ident].chain
    ensures var s, h := SliceOf(db, ident), hs[ident];
            Replay(ChangesOf(events), {}) == VisibleAt(s.files, h.chain, Index(h.chain, to)).Keys
  {
    hide IsListing, IsEventList, IsLog, SchemasOk, ColumnsOk, EvolutionOk, FileOk, Spells, VisibleAt;
    var s, h := SliceOf(db, ident), hs[ident];
    ListingCovers(db, hs, ident, None, to, Ok(events));
    var j := Index(h.chain, to);
    assert h.chain[0..j + 1] == h.chain[..j + 1];
    EventsAreLogs(db, ident, h.chain[..j + 1], events);
    RangeChanges(s.files, h.chain, 0, events);
    VisibleIsReplay(s, h, j);
  }

  predicate SameChanges(xs: seq<FileChange>, ys: seq<FileChange>) {
    |xs| == |ys| && forall i :: 0 <= i < |xs| ==> SameChange(xs[i], ys[i])
  }

  ghost predicate SameFiles(a: map<Uuid, FileRow>, b: map<Uuid, FileRow>) {
    (forall u :: u in a <==> u in b) && forall u :: u in a && u in b ==> FixedFile(a[u]) == FixedFile(b[u])
  }

  lemma {:induction false} SameEventsSameChanges(xs: seq<TxnEvent>, ys: seq<TxnEvent>)
    requires |xs| == |ys| && forall i :: 0 <= i < |xs| ==> SameEvent(xs[i], ys[i])
    ensures SameChanges(ChangesOf(xs), ChangesOf(ys))
    decreases |xs|
  {
    if |xs| > 0 {
      var n := |xs| - 1;
      SameEventsSameChanges(xs[..n], ys[..n]);
      assert SameEvent(xs[n], ys[n]);
    }
  }

  lemma {:induction false} SameChangesSameNet(xs: seq<FileChange>, ys: seq<FileChange>)
    requires SameChanges(xs, ys)
    ensures SameFiles(NetOf(xs).added, NetOf(ys).added) && SameFiles(NetOf(xs).removed, NetOf(ys).removed)
    decreases |xs|
  {
    if |xs| > 0 {
      var n := |xs| - 1;
      SameChangesSameNet(xs[..n], ys[..n]);
      assert SameChange(xs[n], ys[n]);
    }
  }

  // ---------- exactness ----------

  /** The file part of a delta between positions i and j of a history. */
  ghost predicate IsDifference(
    s: Slice, h: Hist, i: nat, j: nat, added: map<Uuid, FileRow>, removed: map<Uuid, FileRow>)
    requires i < |h.chain| && j < |h.chain|
  {
    var a, b := VisibleAt(s.files, h.chain, i), VisibleAt(s.files, h.chain, j);
    IsOnlyIn(added, b, a) && IsOnlyIn(removed, a, b)
  }

  /** The files of b that are not in a. */
  ghost predicate IsOnlyIn(part: map<Uuid, FileRow>, b: map<Uuid, FileRow>, a: map<Uuid, FileRow>) {
    && (forall u :: u in part <==> u in b && u !in a)
    && (forall u :: u in part && u in b ==> FixedFile(part[u]) == FixedFile(b[u]))
  }

  lemma SameDifference(
    s: Slice, h: Hist, i: nat, j: nat, added: map<Uuid, FileRow>, removed: map<Uuid, FileRow>,
    added2: map<Uuid, FileRow>, removed2: map<Uuid, FileRow>)
    requires i < |h.chain| && j < |h.chain| && IsDifference(s, h, i, j, added, removed)
    requires SameFiles(added2, added) && SameFiles(removed2, removed)
    ensures IsDifference(s, h, i, j, added2, removed2)
  {
    hide VisibleAt, FixedFile;
  }

  lemma VisibleRows(files: map<Uuid, FileRow>, c: seq<TxnId>, k: nat)
    ensures forall u :: u in VisibleAt(files, c, k) ==> u in files && VisibleAt(files, c, k)[u] == files[u]
  {
  }

  /** The net delta of an interleaved listing, against the state its existence check sees. */
  lemma InterleavedNet(
    obs: Schedule, hs: nat -> map<TableIdent, Hist>, ident: TableIdent, from: TxnId, to: TxnId, events: seq<TxnEvent>)
    requires Followed(obs, hs, ident) && IsListing(obs, ident, Some(from), to, Ok(events))
    ensures TableOk(obs(1), hs(1), ident)
    ensures var s, h := SliceOf(obs(1), ident), hs(1)[ident];
            && from in h.chain && to in h.chain && Index(h.chain, from) < Index(h.chain, to)
            && var net := NetOf(ChangesOf(events));
            IsDifference(s, h, Index(h.chain, from), Index(h.chain, to), net.added, net.removed)
  {
    hide Followed, IsListing, IsListingAlong, IsEventList, SchemasOk, ColumnsOk, EvolutionOk, Spells, FileOk, IsLog,
      SameEvent, SameFiles, SameChanges, IsDifference, ChangesOf, NetOf;
    TableSeen(obs, hs, ident, 1, 1);
    InterleavedListingIsAtomic(obs, hs, ident, Some(from), to, Ok(events));
    var r0 :| IsListing(Still(obs(1)), ident, Some(from), to, r0) && SameListing(Ok(events), r0);
    SameEventsSameChanges(events, r0.value);
    SameChangesSameNet(ChangesOf(events), ChangesOf(r0.value));
    AtomicNet(obs(1), hs(1), ident, from, to, r0.value);
    var h, net, net0 := hs(1)[ident], NetOf(ChangesOf(events)), NetOf(ChangesOf(r0.value));
    SameDifference(SliceOf(obs(1), ident), h, Index(h.chain, from), Index(h.chain, to), net0.added, net0.removed,
      net.added, net.removed);
  }

  lemma LogsAlongChain(files: map<Uuid, FileRow>, c: seq<TxnId>, lo: nat, hi: nat, events: seq<TxnEvent>)
    requires lo <= hi <= |c| && |events| == hi - lo
    requires forall k :: 0 <= k < |events| ==> IsLog(files, c[lo..hi][k], events[k].changes)
    ensures forall k :: 0 <= k < |events| ==> IsLog(files, c[lo + k], events[k].changes)
  {
    hide IsLog;
    forall k | 0 <= k < |events| ensures IsLog(files, c[lo + k], events[k].changes) {
      assert c[lo..hi][k] == c[lo + k];
    }
  }

  lemma AtomicNet(db: Db, hs: map<TableIdent, Hist>, ident: TableIdent, from: TxnId, to: TxnId, events: seq<TxnEvent>)
    requires TableOk(db, hs, ident) && IsListing(Still(db), ident, Some(from), to, Ok(events))
    ensures var s, h := SliceOf(db, ident), hs[ident];
            && from in h.chain && to in h.chain && Index(h.chain, from) < Index(h.chain, to)
            && var net := NetOf(ChangesOf(events));
            && IsDifference(s, h, Index(h.chain, from), Index(h.chain, to), net.added, net.removed)
            && (forall u :: u in net.added ==> u in s.files && net.added[u] == s.files[u])
            && (forall u :: u in net.removed ==> u in s.files && net.removed[u] == s.files[u])
  {
    hide IsListing, IsEventList, SchemasOk, ColumnsOk, EvolutionOk, Spells, FileOk, IsLog, VisibleAt, ChangesOf, NetOf;
    var s, c := SliceOf(db, ident), hs[ident].chain;
    ListingCovers(db, hs, ident, Some(from), to, Ok(events));
    var i, j := Index(c, from), Index(c, to);
    var txns := c[i + 1..j + 1];
    EventsAreLogs(db, ident, txns, events);
    LogsAlongChain(s.files, c, i + 1, j + 1, events);
    RangeIsDifference(s, hs[ident], i, j, events);
    VisibleRows(s.files, c, i);
    VisibleRows(s.files, c, j);
  }

  lemma ShiftObserved(obs: Schedule, hs: nat -> map<TableIdent, Hist>, ident: TableIdent, q: nat)
    requires Observed(obs, hs, ident)
    ensures Observed(Shift(obs, q), (k: nat) => hs(q + k), ident)
  {
    hide TableOk, Grows, Increasing;
    var later: nat -> map<TableIdent, Hist> := (k: nat) => hs(q + k);
    forall i: nat, j: nat | i <= j ensures GrowsBetween(Shift(obs, q), later, ident, i, j) {
      assert GrowsBetween(obs, hs, ident, q + i, q + j);
    }
  }

  predicate SameSchema(a: SchemaView, b: SchemaView) {
    a.uuid == b.uuid && FixedSchema(a.row) == FixedSchema(b.row) && a.columns == b.columns
  }

  lemma IndexOfItem(c: seq<TxnId>, k: nat)
    requires Distinct(c) && k < |c|
    ensures Index(c, c[k]) == k
  {
  }

  lemma SeenGrowth(obs: Schedule, hs: nat -> map<TableIdent, Hist>, ident: TableIdent, a: nat, b: nat)
    requires Followed(obs, hs, ident) && a <= b
    ensures GrowsBetween(obs, hs, ident, a, b)
  {
  }

  lemma SameResultChains(a: Result<View>, b: Result<View>, c: Result<View>)
    requires SameResult(a, b) && SameResult(c, b)
    ensures SameResult(a, c)
  {
  }

  lemma LaterAnswer(
    obs: Schedule, hs: nat -> map<TableIdent, Hist>, env: Env, ident: TableIdent, a: nat, b: nat, t: TxnId)
    requires Followed(obs, hs, ident) && a <= b && TableOk(obs(a), hs(a), ident) && t in hs(a)[ident].chain
    ensures TableOk(obs(b), hs(b), ident)
    ensures SameResult(ReadAt(env, SliceOf(obs(a), ident), hs(a)[ident], Some(t)),
            ReadAt(env, SliceOf(obs(b), ident), hs(b)[ident], Some(t)))
  {
    hide Followed, FilesGrow, SchemasGrow, FilesOk, SchemasOk, ColumnsOk, EvolutionOk, Snapshot, SameResult;
    SeenGrowth(obs, hs, ident, a, b);
    var k := Index(hs(a)[ident].chain, t);
    IndexOfItem(hs(b)[ident].chain, k);
    SnapshotStable(SliceOf(obs(a), ident), hs(a)[ident], SliceOf(obs(b), ident), hs(b)[ident], k);
    SameErrors();
  }

  lemma SameErrors()
    ensures forall e :: SameResult(Err(e), Err(e))
  {
  }

  /** A read at a later query of a transaction of state a has the answer of state a. */
  lemma LaterRead(
    obs: Schedule, hs: nat -> map<TableIdent, Hist>, env: Env, ident: TableIdent, a: nat, q: nat, t: TxnId,
    r: Result<View>)
    requires Observed(obs, hs, ident) && a <= q && TableOk(obs(a), hs(a), ident) && t in hs(a)[ident].chain
    requires IsRead(Shift(obs, q), env, ident, Some(t), r)
    ensures SameResult(r, ReadAt(env, SliceOf(obs(a), ident), hs(a)[ident], Some(t)))
  {
    hide Followed, IsRead, SliceOk, ReadAt, SameResult;
    ShiftObserved(obs, hs, ident, q);
    InterleavedReadIsAtomic(Shift(obs, q), (k: nat) => hs(q + k), env, ident, Some(t), r);
    LaterAnswer(obs, hs, env, ident, a, q, t);
    SameResultChains(r, ReadAt(env, SliceOf(obs(q), ident), hs(q)[ident], Some(t)),
                     ReadAt(env, SliceOf(obs(a), ident), hs(a)[ident], Some(t)));
  }

  lemma ReadSchema(
    obs: Schedule, hs: nat -> map<TableIdent, Hist>, env: Env, ident: TableIdent, q: nat, t: TxnId, v: View)
    requires Observed(obs, hs, ident) && 1 <= q && TableOk(obs(1), hs(1), ident) && t in hs(1)[ident].chain
    requires IsRead(Shift(obs, q), env, ident, Some(t), Ok(v))
    ensures SameSchema(v.schema, SchemaAt(SliceOf(obs(1), ident), hs(1)[ident], Index(hs(1)[ident].chain, t)))
  {
    hide Observed, IsRead, SliceOk, SchemaAt, VisibleAt;
    LaterRead(obs, hs, env, ident, 1, q, t, Ok(v));
  }

  /** An Ok diff: its listing and its two reads. */
  lemma DiffParts(obs: Schedule, env: Env, ident: TableIdent, from: TxnId, to: TxnId, d: TableDelta)
    returns (events: seq<TxnEvent>, q: nat, a: View, p: nat, b: View)
    requires IsDiff(obs, env, ident, from, to, Ok(d))
    ensures IsListing(obs, ident, Some(from), to, Ok(events)) && 2 <= q <= p
    ensures IsRead(Shift(obs, q), env, ident, Some(from), Ok(a)) && IsRead(Shift(obs, p), env, ident, Some(to), Ok(b))
    ensures d == Project(from, to, events, a, b)
  {
    hide IsListing, IsRead, Project;
    var listing :| IsListing(obs, ident, Some(from), to, listing)
      && IsDiffAfter(obs, env, ident, from, to, listing, Ok(d));
    events := listing.value;
    var x;
    q, x :| 2 <= q && IsRead(Shift(obs, q), env, ident, Some(from), x)
      && IsDiffRead(obs, env, ident, from, to, events, q, x, Ok(d));
    a := x.value;
    var y;
    p, y :| q <= p && IsRead(Shift(obs, p), env, ident, Some(to), y)
            && Ok(d) == if y.Err? then Err(y.error) else Ok(Project(from, to, events, a, y.value));
    b := y.value;
  }

  /** Diff exactness under interleaving: an Ok diff, whatever commits fall between its queries, has `from` properly
      before `to` in the history and reports exactly the files in which the two snapshots differ, so these do not
      depend on the interleaving. */
  lemma InterleavedDiffExact(
    obs: Schedule, hs: nat -> map<TableIdent, Hist>, env: Env, ident: TableIdent, from: TxnId, to: TxnId, d: TableDelta)
    requires Followed(obs, hs, ident) && IsDiff(obs, env, ident, from, to, Ok(d))
    ensures TableOk(obs(1), hs(1), ident)
    ensures var s, h := SliceOf(obs(1), ident), hs(1)[ident];
            && from in h.chain && to in h.chain && Index(h.chain, from) < Index(h.chain, to)
            && d.from == from && d.to == to
            && IsDifference(s, h, Index(h.chain, from), Index(h.chain, to), d.added, d.removed)
  {
    hide Followed, IsDiff, IsListing, IsRead, SliceOk, IsDifference, NetOf, ChangesOf;
    var events, q, a, p, b := DiffParts(obs, env, ident, from, to, d);
    InterleavedNet(obs, hs, ident, from, to, events);
  }

  /** Where ids grow, it reports a new schema exactly when the schemas in force differ, namely that of `to`. */
  lemma InterleavedDiffSchema(
    obs: Schedule, hs: nat -> map<TableIdent, Hist>, env: Env, ident: TableIdent, from: TxnId, to: TxnId, d: TableDelta)
    requires Observed(obs, hs, ident) && IsDiff(obs, env, ident, from, to, Ok(d))
    ensures TableOk(obs(1), hs(1), ident) && from in hs(1)[ident].chain && to in hs(1)[ident].chain
    ensures var s, h := SliceOf(obs(1), ident), hs(1)[ident];
            var a, b := SchemaAt(s, h, Index(h.chain, from)), SchemaAt(s, h, Index(h.chain, to));
            && (d.newSchema.Some? <==> a.uuid != b.uuid)
            && (d.newSchema.Some? ==> SameSchema(d.newSchema.value, b))
  {
    hide Followed, IsDiff, IsListing, IsRead, SliceOk, IsDifference, NetOf, ChangesOf, SchemaAt;
    InterleavedDiffExact(obs, hs, env, ident, from, to, d);
    var events, q, a, p, b := DiffParts(obs, env, ident, from, to, d);
    ReadSchema(obs, hs, env, ident, q, from, a);
    ReadSchema(obs, hs, env, ident, p, to, b);
  }

  /** What it says about properties has nothing to do with `from` and `to`: on any schedule at all, it compares
      the table row as the first queries of the very two reads it is made of saw it. */
  lemma DiffComparesTwoMoments(obs: Schedule, env: Env, ident: TableIdent, from: TxnId, to: TxnId, d: TableDelta)
    returns (events: seq<TxnEvent>, q: nat, a: View, p: nat, b: View)
    requires IsDiff(obs, env, ident, from, to, Ok(d))
    ensures IsListing(obs, ident, Some(from), to, Ok(events)) && 2 <= q <= p
    ensures IsRead(Shift(obs, q), env, ident, Some(from), Ok(a)) && IsRead(Shift(obs, p), env, ident, Some(to), Ok(b))
    ensures d == Project(from, to, events, a, b)
    ensures ident in obs(q).tables && ident in obs(p).tables
    ensures var x, y := obs(q).tables[ident].properties, obs(p).tables[ident].properties;
            && a.properties == x && b.properties == y
            && (d.newProperties.Some? <==> x != y) && (d.newProperties.Some? ==> d.newProperties.value == y)
  {
    hide IsDiff, IsListing, IsRead, NetOf, ChangesOf;
    events, q, a, p, b := DiffParts(obs, env, ident, from, to, d);
    ReadProperties(Shift(obs, q), env, ident, Some(from), a);
    ReadProperties(Shift(obs, p), env, ident, Some(to), b);
  }

  // ---------- the whole outcome ----------

  /** Same outcome, up to the row fields that later commits fill in and the unversioned properties. */
  ghost predicate SameDiff(a: Result<TableDelta>, b: Result<TableDelta>) {
    match (a, b)
    case (Ok(d), Ok(e)) =>
      && d.from == e.from && d.to == e.to && SameFiles(d.added, e.added) && SameFiles(d.removed, e.removed)
      && (d.newSchema.Some? <==> e.newSchema.Some?)
      && (d.newSchema.Some? ==> SameSchema(d.newSchema.value, e.newSchema.value))
    case (Err(e), Err(f)) => e == f
    case _ => false
  }

  lemma SameProjection(
    from: TxnId, to: TxnId, xs: seq<TxnEvent>, ys: seq<TxnEvent>, a: View, b: View, a0: View, b0: View)
    requires SameListing(Ok(xs), Ok(ys)) && SameResult(Ok(a), Ok(a0)) && SameResult(Ok(b), Ok(b0))
    ensures SameDiff(Ok(Project(from, to, xs, a, b)), Ok(Project(from, to, ys, a0, b0)))
  {
    hide SameEvent, NetOf, ChangesOf, SameFiles, SameChanges;
    SameEventsSameChanges(xs, ys);
    SameChangesSameNet(ChangesOf(xs), ChangesOf(ys));
  }

  /** The two reads of a diff against the state of its existence check. */
  lemma InterleavedReads(
    obs: Schedule, hs: nat -> map<TableIdent, Hist>, env: Env, ident: TableIdent, from: TxnId, to: TxnId,
    xs: seq<TxnEvent>, ys: seq<TxnEvent>, r: Result<TableDelta>) returns (r0: Result<TableDelta>)
    requires Observed(obs, hs, ident) && IsDiffAfter(obs, env, ident, from, to, Ok(xs), r)
             && SameListing(Ok(xs), Ok(ys))
    requires TableOk(obs(1), hs(1), ident) && from in hs(1)[ident].chain && to in hs(1)[ident].chain
    ensures IsDiffAfter(Still(obs(1)), env, ident, from, to, Ok(ys), r0) && SameDiff(r, r0)
  {
    hide Followed, IsRead, ReadAt, SliceOk, SameListing, Project, FixedView;
    var db, s, h := obs(1), SliceOf(obs(1), ident), hs(1)[ident];
    var q: nat, a :| 2 <= q && IsRead(Shift(obs, q), env, ident, Some(from), a)
      && IsDiffRead(obs, env, ident, from, to, xs, q, a, r);
    var a0 := ReadAt(env, s, h, Some(from));
    LaterRead(obs, hs, env, ident, 1, q, from, a);
    AtomicReadExists(Shift(Still(db), 2), db, hs(1), env, ident, Some(from));
    r0 := r;
    if a.Ok? {
      var p: nat, b :| q <= p && IsRead(Shift(obs, p), env, ident, Some(to), b)
                       && r == if b.Err? then Err(b.error) else Ok(Project(from, to, xs, a.value, b.value));
      var b0 := ReadAt(env, s, h, Some(to));
      LaterRead(obs, hs, env, ident, 1, p, to, b);
      AtomicReadExists(Shift(Still(db), 2), db, hs(1), env, ident, Some(to));
      if b.Ok? {
        r0 := Ok(Project(from, to, ys, a0.value, b0.value));
        SameProjection(from, to, xs, ys, a.value, b.value, a0.value, b0.value);
      }
    }
    assert IsDiffRead(Still(db), env, ident, from, to, ys, 2, a0, r0);
  }

  /** Diffs are linearizable: whatever commits fall between its queries, a diff has the outcome of an atomic diff
      of the state its existence check sees, errors included. */
  lemma InterleavedDiffIsAtomic(
    obs: Schedule, hs: nat -> map<TableIdent, Hist>, env: Env, ident: TableIdent, from: TxnId, to: TxnId,
    r: Result<TableDelta>)
    returns (r0: Result<TableDelta>)
    requires Observed(obs, hs, ident) && IsDiff(obs, env, ident, from, to, r)
    ensures IsDiff(Still(obs(1)), env, ident, from, to, r0) && SameDiff(r, r0)
  {
    hide Followed, IsListing, SameEvent, IsRead, SliceOk, IsDiffRead, SameDiff, IsDifference;
    var listing :| IsListing(obs, ident, Some(from), to, listing) && IsDiffAfter(obs, env, ident, from, to, listing, r);
    InterleavedListingIsAtomic(obs, hs, ident, Some(from), to, listing);
    var listing0 :| IsListing(Still(obs(1)), ident, Some(from), to, listing0) && SameListing(listing, listing0);
    if listing.Ok? {
      InterleavedNet(obs, hs, ident, from, to, listing.value);
      r0 := InterleavedReads(obs, hs, env, ident, from, to, listing.value, listing0.value, r);
    } else {
      r0 := r;
      SameFailures();
    }
    assert IsDiffAfter(Still(obs(1)), env, ident, from, to, listing0, r0);
  }

  lemma SameFailures()
    ensures forall e :: SameDiff(Err(e), Err(e))
  {
  }

  /** When an undisturbed diff succeeds: the boundary is a proper ancestor of the target and every limit holds.
      In particular `from == to` is refused. It never reports properties, which are not versioned. */
  lemma AtomicDiffOutcome(
    db: Db, hs: map<TableIdent, Hist>, env: Env, ident: TableIdent, from: TxnId, to: TxnId, r: Result<TableDelta>)
    requires TableOk(db, hs, ident) && IsDiff(Still(db), env, ident, from, to, r)
    ensures Increasing(hs[ident].chain) ==> (r.Ok? <==> DiffSucceeds(db, hs[ident], env, ident, from, to))
    ensures r.Ok? ==> r.value.newProperties.None?
    ensures to in hs[ident].chain && LowEnd(hs[ident].chain, Some(from), Index(hs[ident].chain, to)) == 0 ==>
              r == Err(NotAncestor) || r == Err(TooManyTransactions)
  {
    hide IsListing, IsRead, IsEventList, FilesOk, SchemasOk, ColumnsOk, EvolutionOk, Spells, FirstFault, SchemaAt,
      ChangesOf, NetOf, Index, AllFacts, IsDiffAfter, VisibleAt;
    var h := hs[ident];
    var listing :| IsListing(Still(db), ident, Some(from), to, listing)
                   && IsDiffAfter(Still(db), env, ident, from, to, listing, r);
    ListingCovers(db, hs, ident, Some(from), to, listing);
    if to in h.chain && LowEnd(h.chain, Some(from), Index(h.chain, to)) > 0 {
      ListingOk(db, ident, h.chain[LowEnd(h.chain, Some(from), Index(h.chain, to))..Index(h.chain, to) + 1], listing);
    }
    if listing.Err? {
      DiffFails(Still(db), env, ident, from, to, listing, r);
    } else {
      if Increasing(h.chain) { DiffReads(db, hs, env, ident, from, to, listing.value, r); }
      if r.Ok? { var events, q, a, p, b := DiffComparesTwoMoments(Still(db), env, ident, from, to, r.value); }
    }
  }

  ghost predicate DiffSucceeds(db: Db, h: Hist, env: Env, ident: TableIdent, from: TxnId, to: TxnId)
    requires ident in db.tables
  {
    var s := SliceOf(db, ident);
    && from in h.chain && to in h.chain && Index(h.chain, from) < Index(h.chain, to)
    && var i, j := Index(h.chain, from), Index(h.chain, to);
    && j - i <= MAX_TRANSACTIONS_PER_SCAN
    && FirstFault(AllFacts(Still(db), 0, s.row.uuid, h.chain[i + 1..j + 1]), j - i).None?
    && env.reader >= s.row.minReader
    && |VisibleAt(s.files, h.chain, i)| <= MAX_FILES_PER_QUERY
       && |VisibleAt(s.files, h.chain, j)| <= MAX_FILES_PER_QUERY
  }

  lemma ListingOk(db: Db, ident: TableIdent, txns: seq<TxnId>, listing: Result<seq<TxnEvent>>)
    requires ident in db.tables
    ensures IsEventList(Still(db), 0, db.tables[ident].uuid, txns, listing) ==>
              (listing.Ok? <==> FirstFault(AllFacts(Still(db), 0, db.tables[ident].uuid, txns), |txns|).None?)
  {
  }

  lemma StillRead(db: Db, hs: map<TableIdent, Hist>, env: Env, ident: TableIdent, q: nat, t: TxnId, r: Result<View>)
    requires TableOk(db, hs, ident) && Increasing(hs[ident].chain)
             && IsRead(Shift(Still(db), q), env, ident, Some(t), r)
    requires t in hs[ident].chain
    ensures var s, h := SliceOf(db, ident), hs[ident];
            r.Ok? <==>
              && env.reader >= s.row.minReader
              && |VisibleAt(s.files, h.chain, Index(h.chain, t))| <= MAX_FILES_PER_QUERY
  {
    hide IsRead, SliceOk, VisibleAt, SchemaAt;
    AtomicReadExact(Shift(Still(db), q), db, hs, env, ident, Some(t), r);
  }

  lemma DiffFails(
    obs: Schedule, env: Env, ident: TableIdent, from: TxnId, to: TxnId, listing: Result<seq<TxnEvent>>,
    r: Result<TableDelta>)
    requires IsDiffAfter(obs, env, ident, from, to, listing, r) && listing.Err?
    ensures r == Err(listing.error)
  {
  }

  lemma DiffReads(
    db: Db, hs: map<TableIdent, Hist>, env: Env, ident: TableIdent, from: TxnId, to: TxnId, events: seq<TxnEvent>,
    r: Result<TableDelta>)
    requires TableOk(db, hs, ident) && Increasing(hs[ident].chain) && from in hs[ident].chain && to in hs[ident].chain
    requires IsDiffAfter(Still(db), env, ident, from, to, Ok(events), r)
    ensures var s, h := SliceOf(db, ident), hs[ident];
            r.Ok? <==> && env.reader >= s.row.minReader
                       && |VisibleAt(s.files, h.chain, Index(h.chain, from))| <= MAX_FILES_PER_QUERY
                       && |VisibleAt(s.files, h.chain, Index(h.chain, to))| <= MAX_FILES_PER_QUERY
  {
    hide IsRead, SliceOk, VisibleAt, NetOf, ChangesOf;
    var q: nat, a :| 2 <= q && IsRead(Shift(Still(db), q), env, ident, Some(from), a)
                     && IsDiffRead(Still(db), env, ident, from, to, events, q, a, r);
    StillRead(db, hs, env, ident, q, from, a);
    if a.Ok? {
      var p: nat, b :| q <= p && IsRead(Shift(Still(db), p), env, ident, Some(to), b)
                       && r == if b.Err? then Err(b.error) else Ok(Project(from, to, events, a.value, b.value));
      StillRead(db, hs, env, ident, p, to, b);
    }
  }

  // ---------- conservation ----------

  function Weigh(files: map<Uuid, FileRow>, w: FileRow -> int): map<Uuid, int> {
    map u | u in files :: w(FixedFile(files[u]))
  }

  ghost function SumOf(m: map<Uuid, int>): int
    decreases |m|
  {
    if m == map[] then 0 else
      var u :| u in m;
      m[u] + SumOf(m - {u})
  }

  /** A total over files, such as records or bytes, of fields that no commit changes. */
  ghost function Total(files: map<Uuid, FileRow>, w: FileRow -> int): int {
    SumOf(Weigh(files, w))
  }

  lemma {:induction false} SumWithout(m: map<Uuid, int>, u: Uuid)
    requires u in m
    ensures SumOf(m) == m[u] + SumOf(m - {u})
    decreases |m|
  {
    var v :| v in m && SumOf(m) == m[v] + SumOf(m - {v});
    if v != u {
      SumWithout(m - {v}, u);
      SumWithout(m - {u}, v);
      assert (m - {v}) - {u} == (m - {u}) - {v};
    }
  }

  lemma SumOfNone()
    ensures SumOf(map[]) == 0
  {
  }

  lemma WithoutUnion(m: map<Uuid, int>, n: map<Uuid, int>, u: Uuid)
    requires u !in m
    ensures (m + n) - {u} == m + (n - {u})
  {
  }

  lemma {:induction false} SumOfUnion(m: map<Uuid, int>, n: map<Uuid, int>)
    requires m.Keys !! n.Keys
    ensures SumOf(m + n) == SumOf(m) + SumOf(n)
    decreases |n|
  {
    hide SumOf;
    SumOfNone();
    if n == map[] {
      assert m + n == m;
    } else {
      var u :| u in n;
      SumOfUnion(m, n - {u});
      SumWithout(n, u);
      SumWithout(m + n, u);
      WithoutUnion(m, n, u);
    }
  }

  lemma SameWeights(
    a: map<Uuid, FileRow>, b: map<Uuid, FileRow>, added: map<Uuid, FileRow>, removed: map<Uuid, FileRow>,
    w: FileRow -> int)
    requires forall u :: u in a && u in b ==> a[u] == b[u]
    requires IsOnlyIn(added, b, a) && IsOnlyIn(removed, a, b)
    ensures var kept := Weigh(a, w) - removed.Keys;
            && Weigh(b, w) == kept + Weigh(added, w) && kept.Keys !! Weigh(added, w).Keys
            && Weigh(a, w) == kept + Weigh(removed, w) && kept.Keys !! Weigh(removed, w).Keys
  {
    hide FixedFile;
  }

  /** Conservation: whatever is counted, the later snapshot holds what the earlier one held plus what the
      diff adds minus what it removes. */
  lemma DiffConserves(
    s: Slice, h: Hist, i: nat, j: nat, added: map<Uuid, FileRow>, removed: map<Uuid, FileRow>, w: FileRow -> int)
    requires i < |h.chain| && j < |h.chain| && IsDifference(s, h, i, j, added, removed)
    ensures Total(VisibleAt(s.files, h.chain, j), w) ==
              Total(VisibleAt(s.files, h.chain, i), w) + Total(added, w) - Total(removed, w)
  {
    hide VisibleAt, SumOf, FixedFile;
    var a, b := VisibleAt(s.files, h.chain, i), VisibleAt(s.files, h.chain, j);
    var kept := Weigh(a, w) - removed.Keys;
    VisibleRows(s.files, h.chain, i);
    VisibleRows(s.files, h.chain, j);
    SameWeights(a, b, added, removed, w);
    SumOfUnion(kept, Weigh(added, w));
    SumOfUnion(kept, Weigh(removed, w));
  }

  /** A file never comes back: visible at both ends means visible in between. */
  lemma VisibleOnce(s: Slice, h: Hist, i: nat, j: nat, k: nat)
    requires i <= j <= k && FilesOk(s, h)
    ensures forall u :: u in VisibleAt(s.files, h.chain, i) && u in VisibleAt(s.files, h.chain, k) ==>
                          u in VisibleAt(s.files, h.chain, j)
  {
  }

  lemma ComposedRows(a: map<Uuid, FileRow>, b: map<Uuid, FileRow>, c: map<Uuid, FileRow>, x: Net, y: Net)
    requires IsOnlyIn(x.added, b, a) && IsOnlyIn(x.removed, a, b) && IsOnlyIn(y.added, c, b)
             && IsOnlyIn(y.removed, b, c)
    requires forall u :: u in a && u in c ==> u in b
    requires (forall u :: u in a && u in b ==> a[u] == b[u]) && (forall u :: u in b && u in c ==> b[u] == c[u])
    ensures IsOnlyIn(Compose(x, y).added, c, a) && IsOnlyIn(Compose(x, y).removed, a, c)
  {
    hide FixedFile;
    ComposedHalf(x.added, y.removed, y.added, a, b, c);
    ComposedHalf(y.removed, x.added, x.removed, c, b, a);
    SwapUnion(x.removed, y.removed - x.added.Keys, y.added.Keys);
  }

  lemma SwapUnion(p: map<Uuid, FileRow>, q: map<Uuid, FileRow>, drop: set<Uuid>)
    requires p.Keys !! q.Keys && p.Keys !! drop
    ensures (p - drop) + q == q + p
  {
  }

  /** What c has over a: what b has over a and c keeps, and what c has over b. */
  lemma ComposedHalf(
    overA: map<Uuid, FileRow>, lost: map<Uuid, FileRow>, overB: map<Uuid, FileRow>,
    a: map<Uuid, FileRow>, b: map<Uuid, FileRow>, c: map<Uuid, FileRow>)
    requires IsOnlyIn(overA, b, a) && IsOnlyIn(lost, b, c) && IsOnlyIn(overB, c, b)
    requires forall u :: u in a && u in c ==> u in b
    requires forall u :: u in b && u in c ==> b[u] == c[u]
    ensures IsOnlyIn((overA - lost.Keys) + overB, c, a)
  {
    hide FixedFile;
  }

  /** Diffs compose along the history. */
  lemma DifferencesCompose(
    s: Slice, h: Hist, i: nat, j: nat, k: nat, x: Net, y: Net)
    requires i < |h.chain| && j < |h.chain| && k < |h.chain|
    requires IsDifference(s, h, i, j, x.added, x.removed) && IsDifference(s, h, j, k, y.added, y.removed)
    requires FilesOk(s, h) && i <= j <= k
    ensures IsDifference(s, h, i, k, Compose(x, y).added, Compose(x, y).removed)
  {
    hide VisibleAt, FixedFile, FilesOk;
    VisibleOnce(s, h, i, j, k);
    VisibleRows(s.files, h.chain, i);
    VisibleRows(s.files, h.chain, j);
    VisibleRows(s.files, h.chain, k);
    ComposedRows(VisibleAt(s.files, h.chain, i), VisibleAt(s.files, h.chain, j), VisibleAt(s.files, h.chain, k), x, y);
  }
}
