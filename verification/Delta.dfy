/** Net table delta over an ordered range of transaction events. */
module Delta {
  import opened CatalogTypes

  datatype Net = Net(added: map<Uuid, FileRow>, removed: map<Uuid, FileRow>)

  function Absorb(net: Net, c: FileChange): Net {
    match c.kind
    case Added => Net(net.added[c.uuid := c.file], net.removed - {c.uuid})
    case Removed =>
      if c.uuid in net.added then Net(net.added - {c.uuid}, net.removed)
      else Net(net.added, net.removed[c.uuid := c.file])
  }

  function NetOf(changes: seq<FileChange>): Net {
    if |changes| == 0 then Net(map[], map[])
    else Absorb(NetOf(changes[..|changes| - 1]), changes[|changes| - 1])
  }

  function ChangesOf(events: seq<TxnEvent>): seq<FileChange> {
    if |events| == 0 then [] else ChangesOf(events[..|events| - 1]) + events[|events| - 1].changes
  }

  lemma NetOfNext(before: seq<FileChange>, changes: seq<FileChange>, i: nat)
    requires i < |changes|
    ensures NetOf(before + changes[..i + 1]) == Absorb(NetOf(before + changes[..i]), changes[i])
  {
    var upTo := before + changes[..i + 1];
    assert upTo[..|upTo| - 1] == before + changes[..i] && upTo[|upTo| - 1] == changes[i];
  }

  method ProjectDeltaRange(events: seq<TxnEvent>) returns (added: map<Uuid, FileRow>, removed: map<Uuid, FileRow>)
    ensures Net(added, removed) == NetOf(ChangesOf(events))
  {
    added, removed := map[], map[];
    for e := 0 to |events|
      invariant Net(added, removed) == NetOf(ChangesOf(events[..e]))
    {
      var changes := events[e].changes;
      ghost var before := ChangesOf(events[..e]);
      assert before + changes[..0] == before;
      for i := 0 to |changes|
        invariant Net(added, removed) == NetOf(before + changes[..i])
      {
        var c := changes[i];
        NetOfNext(before, changes, i);
        match c.kind {
          case Added =>
            removed := removed - {c.uuid};
            added := added[c.uuid := c.file];
          case Removed =>
            if c.uuid in added {
              added := added - {c.uuid};
            } else {
              removed := removed[c.uuid := c.file];
            }
        }
      }
      assert events[..e + 1][..e] == events[..e];
      assert before + changes[..|changes|] == ChangesOf(events[..e + 1]);
    }
    assert events[..|events|] == events;
  }

  // ---------- meaning ----------

  /** Live files after the changes take effect in order. */
  function Replay(changes: seq<FileChange>, live: set<Uuid>): set<Uuid> {
    if |changes| == 0 then live else
      var before := Replay(changes[..|changes| - 1], live);
      var c := changes[|changes| - 1];
      if c.kind.Added? then before + {c.uuid} else before - {c.uuid}
  }

  /** Each file is added at most once, removed at most once, and never added after a removal. */
  predicate WellFormed(changes: seq<FileChange>) {
    forall i, j :: 0 <= i < j < |changes| && changes[i].uuid == changes[j].uuid ==>
                     changes[i].kind.Added? && changes[j].kind.Removed?
  }

  /** The changes can start from `live`: only absent files are added, only present ones removed. */
  predicate StartsFrom(changes: seq<FileChange>, live: set<Uuid>) {
    forall i :: 0 <= i < |changes| ==>
                  if changes[i].kind.Added? then changes[i].uuid !in live
                  else changes[i].uuid in live || exists j :: 0 <= j < i && changes[j].uuid == changes[i].uuid
  }

  predicate Names(changes: seq<FileChange>, kind: ChangeKind, u: Uuid) {
    exists i :: 0 <= i < |changes| && changes[i].kind == kind && changes[i].uuid == u
  }

  /** The two maps never share a file, whatever the changes. */
  lemma {:induction false} NetDisjoint(changes: seq<FileChange>)
    ensures NetOf(changes).added.Keys !! NetOf(changes).removed.Keys
    decreases |changes|
  {
    if |changes| > 0 { NetDisjoint(changes[..|changes| - 1]); }
  }

  // ---------- one file at a time ----------

  /** What a delta says about one file. */
  datatype Mark = Unmarked | Addition(file: FileRow) | Removal(file: FileRow)

  function MarkOf(net: Net, u: Uuid): Mark {
    if u in net.added then Addition(net.added[u])
    else if u in net.removed then Removal(net.removed[u])
    else Unmarked
  }

  /** The changes of one file, in order. */
  function OnFile(changes: seq<FileChange>, u: Uuid): seq<FileChange> {
    if |changes| == 0 then [] else
      var n := |changes| - 1;
      OnFile(changes[..n], u) + if changes[n].uuid == u then [changes[n]] else []
  }

  /** What the changes of one file come to: its last change, except that a removal cancels an addition
      directly before it. */
  function Outcome(s: seq<FileChange>): Mark {
    if |s| == 0 then Unmarked else
      var n := |s| - 1;
      if s[n].kind.Added? then Addition(s[n].file)
      else if n > 0 && s[n - 1].kind.Added? then Unmarked
      else Removal(s[n].file)
  }

  /** For any list of changes, the delta holds for each file exactly the outcome of that file's changes. */
  lemma {:induction false} NetContents(changes: seq<FileChange>, u: Uuid)
    ensures MarkOf(NetOf(changes), u) == Outcome(OnFile(changes, u))
    decreases |changes|
  {
    if |changes| > 0 {
      var n := |changes| - 1;
      NetContents(changes[..n], u);
      NetDisjoint(changes[..n]);
    }
  }

  lemma {:induction false} OnFileConcat(xs: seq<FileChange>, ys: seq<FileChange>, u: Uuid)
    ensures OnFile(xs + ys, u) == OnFile(xs, u) + OnFile(ys, u)
    decreases |ys|
  {
    if |ys| == 0 {
      assert xs + ys == xs;
    } else {
      var n := |ys| - 1;
      assert (xs + ys)[..|xs| + n] == xs + ys[..n] && (xs + ys)[|xs| + n] == ys[n];
      OnFileConcat(xs, ys[..n], u);
    }
  }

  lemma {:induction false} OnFileMember(changes: seq<FileChange>, u: Uuid, i: nat)
    requires i < |OnFile(changes, u)|
    ensures OnFile(changes, u)[i] in changes && OnFile(changes, u)[i].uuid == u
    decreases |changes|
  {
    var n := |changes| - 1;
    if i < |OnFile(changes[..n], u)| { OnFileMember(changes[..n], u, i); }
  }

  // ---------- when the delta is the difference ----------

  /** The changes make sense from `live`: only absent files are added, only present ones removed. */
  predicate Applicable(changes: seq<FileChange>, live: set<Uuid>) {
    |changes| == 0 ||
    var n := |changes| - 1;
    Applicable(changes[..n], live) && (changes[n].kind.Added? <==> changes[n].uuid !in Replay(changes[..n], live))
  }

  predicate TellsDifference(changes: seq<FileChange>, live: set<Uuid>) {
    && NetOf(changes).added.Keys == Replay(changes, live) - live
    && NetOf(changes).removed.Keys == live - Replay(changes, live)
  }

  lemma NamesNext(changes: seq<FileChange>, kind: ChangeKind, u: Uuid)
    requires |changes| > 0
    ensures var n := |changes| - 1;
            Names(changes, kind, u) <==>
              Names(changes[..n], kind, u) || (changes[n].kind == kind && changes[n].uuid == u)
  {
    var n := |changes| - 1;
    if Names(changes[..n], kind, u) {
      var i :| 0 <= i < n && changes[..n][i].kind == kind && changes[..n][i].uuid == u;
      assert changes[i].kind == kind && changes[i].uuid == u;
    }
    if i :| 0 <= i < |changes| && changes[i].kind == kind && changes[i].uuid == u {
      if i < n { assert changes[..n][i] == changes[i]; }
    }
  }

  /** How the loop reports a file: one that was live is reported right until it is added again, and from then on
      as if it had been absent. */
  ghost predicate FileReported(changes: seq<FileChange>, live: set<Uuid>, u: Uuid) {
    var net, after := NetOf(changes), Replay(changes, live);
    if u in live && !Names(changes, Added, u) then u !in net.added && (u in net.removed <==> u !in after)
    else (u in net.added <==> u in after) && u !in net.removed
  }

  lemma {:induction false} FileOutcome(changes: seq<FileChange>, live: set<Uuid>, u: Uuid)
    requires Applicable(changes, live)
    ensures FileReported(changes, live, u)
    decreases |changes|
  {
    if |changes| > 0 {
      FileOutcome(changes[..|changes| - 1], live, u);
      NamesNext(changes, Added, u);
    }
  }

  /** The delta is the difference of the two file sets if and only if no file that was live is ever added again. */
  lemma NetExactIff(changes: seq<FileChange>, live: set<Uuid>)
    requires Applicable(changes, live)
    ensures TellsDifference(changes, live) <==> forall u :: u in live ==> !Names(changes, Added, u)
  {
    hide Applicable, Names, NetOf, Replay;
    forall u ensures FileReported(changes, live, u) { FileOutcome(changes, live, u); }
    var net, after := NetOf(changes), Replay(changes, live);
    if u :| u in live && Names(changes, Added, u) {
      assert FileReported(changes, live, u);
      assert u in net.added.Keys <==> u in after;
      assert u !in after - live && (u in live - after <==> u !in after);
    } else {
      forall u ensures (u in net.added <==> u in after - live) && (u in net.removed <==> u in live - after) {
        assert FileReported(changes, live, u);
      }
    }
  }

  /** Applying the delta to the files it starts from leads to the replayed files if and only if every live file
      that is added again is live at the end. */
  lemma NetAppliesIff(changes: seq<FileChange>, live: set<Uuid>)
    requires Applicable(changes, live)
    ensures live - NetOf(changes).removed.Keys + NetOf(changes).added.Keys == Replay(changes, live) <==>
              forall u :: u in live && Names(changes, Added, u) ==> u in Replay(changes, live)
  {
    hide Applicable, Names, NetOf, Replay;
    forall u ensures FileReported(changes, live, u) { FileOutcome(changes, live, u); }
    var applied, after := live - NetOf(changes).removed.Keys + NetOf(changes).added.Keys, Replay(changes, live);
    if u :| u in live && Names(changes, Added, u) && u !in after {
      assert FileReported(changes, live, u);
      assert u in applied;
    } else {
      forall u ensures u in applied <==> u in after { assert FileReported(changes, live, u); }
    }
  }

  lemma {:induction false} WellFormedReplay(changes: seq<FileChange>, live: set<Uuid>, u: Uuid)
    requires WellFormed(changes)
    ensures u in Replay(changes, live) <==> (u in live || Names(changes, Added, u)) && !Names(changes, Removed, u)
    decreases |changes|
  {
    if |changes| > 0 {
      var n := |changes| - 1;
      WellFormedReplay(changes[..n], live, u);
      NamesNext(changes, Added, u);
      NamesNext(changes, Removed, u);
      if Names(changes[..n], Removed, u) {
        var i :| 0 <= i < n && changes[..n][i].kind == Removed && changes[..n][i].uuid == u;
        assert changes[i].kind.Removed?;
      }
    }
  }

  /** Logs that add and remove each file at most once, in that order, are applicable. */
  lemma {:induction false} WellFormedApplies(changes: seq<FileChange>, live: set<Uuid>)
    requires WellFormed(changes) && StartsFrom(changes, live)
    ensures Applicable(changes, live)
    decreases |changes|
  {
    if |changes| > 0 {
      var n := |changes| - 1;
      var before, c := changes[..n], changes[n];
      assert StartsFrom(before, live) by {
        forall i | 0 <= i < n && before[i].kind.Removed? && before[i].uuid !in live
          ensures exists j :: 0 <= j < i && before[j].uuid == before[i].uuid
        {
          var j :| 0 <= j < i && changes[j].uuid == changes[i].uuid;
          assert before[j] == changes[j];
        }
      }
      WellFormedApplies(before, live);
      WellFormedReplay(before, live, c.uuid);
      LastOfItsFile(changes);
      if c.kind.Removed? && c.uuid !in live {
        var j :| 0 <= j < n && changes[j].uuid == c.uuid;
        assert before[j] == changes[j];
      }
    }
  }

  /** Before the last change of a well-formed log its file has no removal, and no change at all if it is an addition. */
  lemma LastOfItsFile(changes: seq<FileChange>)
    requires WellFormed(changes) && |changes| > 0
    ensures var n := |changes| - 1;
            && !Names(changes[..n], Removed, changes[n].uuid)
            && (changes[n].kind.Added? ==> !Names(changes[..n], Added, changes[n].uuid))
  {
    var n := |changes| - 1;
    assert forall i :: 0 <= i < n ==> changes[..n][i] == changes[i];
  }

  /** Applying the delta to the files it starts from equals replaying every change, and the delta
      is exactly the difference of the two file sets. */
  lemma NetIsDifference(changes: seq<FileChange>, live: set<Uuid>)
    requires WellFormed(changes) && StartsFrom(changes, live)
    ensures Replay(changes, live) == live - NetOf(changes).removed.Keys + NetOf(changes).added.Keys
    ensures NetOf(changes).added.Keys == Replay(changes, live) - live
    ensures NetOf(changes).removed.Keys == live - Replay(changes, live)
  {
    WellFormedApplies(changes, live);
    NetExactIff(changes, live);
  }

  // ---------- when deltas compose ----------

  /** The delta of two consecutive ranges from the deltas of each. */
  function Compose(x: Net, y: Net): Net {
    Net((x.added - y.removed.Keys) + y.added,
        (x.removed - y.added.Keys) + (y.removed - x.added.Keys))
  }

  /** A file stands in the way when the second range touches it and either ends without a mark on a file the
      first range marks, or ends by removing a file the first range adds after more than that one removal. */
  predicate Obstructs(xs: seq<FileChange>, ys: seq<FileChange>, u: Uuid) {
    var before, after := Outcome(OnFile(xs, u)), OnFile(ys, u);
    |after| > 0 &&
    match Outcome(after)
    case Unmarked => before != Unmarked
    case Removal(_) => before.Addition? && |after| > 1
    case Addition(_) => false
  }

  lemma ComposedMark(x: Net, y: Net, u: Uuid)
    requires u in y.added ==> u !in y.removed
    requires u in x.added ==> u !in x.removed
    ensures MarkOf(Compose(x, y), u) ==
              match MarkOf(y, u)
              case Addition(f) => Addition(f)
              case Removal(f) => if u in x.added then Unmarked else Removal(f)
              case Unmarked => MarkOf(x, u)
  {
  }

  lemma SameMarks(x: Net, y: Net)
    requires x.added.Keys !! x.removed.Keys && y.added.Keys !! y.removed.Keys
    requires forall u :: MarkOf(x, u) == MarkOf(y, u)
    ensures x == y
  {
    forall u ensures (u in x.added <==> u in y.added) && (u in x.removed <==> u in y.removed) {
      assert MarkOf(x, u) == MarkOf(y, u);
    }
    assert forall u :: u in x.added ==> MarkOf(x, u) == Addition(x.added[u]);
    assert forall u :: u in x.removed ==> MarkOf(x, u) == Removal(x.removed[u]);
  }

  lemma FileComposesIff(xs: seq<FileChange>, ys: seq<FileChange>, u: Uuid)
    ensures MarkOf(NetOf(xs + ys), u) == MarkOf(Compose(NetOf(xs), NetOf(ys)), u) <==> !Obstructs(xs, ys, u)
  {
    hide NetOf, OnFile, Compose;
    NetContents(xs, u);
    NetContents(ys, u);
    NetContents(xs + ys, u);
    OnFileConcat(xs, ys, u);
    NetDisjoint(xs);
    NetDisjoint(ys);
    ComposedMark(NetOf(xs), NetOf(ys), u);
  }

  /** For any two lists of changes, their deltas compose if and only if no file stands in the way. */
  lemma DeltasComposeIff(xs: seq<FileChange>, ys: seq<FileChange>)
    ensures NetOf(xs + ys) == Compose(NetOf(xs), NetOf(ys)) <==> forall u :: !Obstructs(xs, ys, u)
  {
    hide NetOf, OnFile, Obstructs, Outcome, MarkOf;
    forall u ensures MarkOf(NetOf(xs + ys), u) == MarkOf(Compose(NetOf(xs), NetOf(ys)), u) <==> !Obstructs(xs, ys, u) {
      FileComposesIff(xs, ys, u);
    }
    NetDisjoint(xs);
    NetDisjoint(ys);
    NetDisjoint(xs + ys);
    if forall u :: !Obstructs(xs, ys, u) { SameMarks(NetOf(xs + ys), Compose(NetOf(xs), NetOf(ys))); }
  }

  lemma {:induction false} OnFileIndices(changes: seq<FileChange>, u: Uuid, a: nat, b: nat) returns (i: nat, j: nat)
    requires a < b < |OnFile(changes, u)|
    ensures i < j < |changes| && changes[i] == OnFile(changes, u)[a] && changes[j] == OnFile(changes, u)[b]
    decreases |changes|
  {
    var n := |changes| - 1;
    if b < |OnFile(changes[..n], u)| {
      i, j := OnFileIndices(changes[..n], u, a, b);
    } else {
      j := n;
      OnFileMember(changes[..n], u, a);
      i :| 0 <= i < n && changes[..n][i] == OnFile(changes[..n], u)[a];
    }
  }

  lemma PairOnFile(changes: seq<FileChange>, u: Uuid, a: nat, b: nat)
    requires WellFormed(changes) && a < b < |OnFile(changes, u)|
    ensures OnFile(changes, u)[a].kind.Added? && OnFile(changes, u)[b].kind.Removed?
  {
    OnFileMember(changes, u, a);
    OnFileMember(changes, u, b);
    var i, j := OnFileIndices(changes, u, a, b);
    assert changes[i].uuid == changes[j].uuid;
  }

  /** A well-formed log has at most an addition and then a removal of each file. */
  lemma WellFormedOnFile(changes: seq<FileChange>, u: Uuid)
    requires WellFormed(changes)
    ensures var s := OnFile(changes, u); |s| <= 2 && (|s| == 2 ==> s[0].kind.Added? && s[1].kind.Removed?)
  {
    if |OnFile(changes, u)| >= 2 { PairOnFile(changes, u, 0, 1); }
    if |OnFile(changes, u)| >= 3 { PairOnFile(changes, u, 1, 2); }
  }

  /** Deltas of one well-formed log compose. */
  lemma DeltasCompose(xs: seq<FileChange>, ys: seq<FileChange>)
    requires WellFormed(xs + ys)
    ensures NetOf(xs + ys) == Compose(NetOf(xs), NetOf(ys))
  {
    hide NetOf, OnFile, WellFormed;
    DeltasComposeIff(xs, ys);
    forall u ensures !Obstructs(xs, ys, u) {
      WellFormedOnFile(xs + ys, u);
      OnFileConcat(xs, ys, u);
      assert OnFile(xs + ys, u)[..|OnFile(xs, u)|] == OnFile(xs, u);
    }
  }

  /** Inputs on either wrong side: a live file removed and added again comes out as an addition, and a file
      that one range removes and the next adds and removes again spoils the composition. Neither log can come
      out of a listing, where every file is added and removed at most once. */
  lemma ReAddIsMisreported(u: Uuid, f: FileRow, t: TxnId)
    ensures var changes := [FileChange(t, Removed, u, f), FileChange(t, Added, u, f)];
            Replay(changes, {u}) == {u} && NetOf(changes).added.Keys == {u}
    ensures var xs := [FileChange(t, Removed, u, f)];
            var ys := [FileChange(t, Added, u, f), FileChange(t, Removed, u, f)];
            NetOf(xs + ys) != Compose(NetOf(xs), NetOf(ys))
  {
    var changes := [FileChange(t, Removed, u, f), FileChange(t, Added, u, f)];
    assert changes[..1] == [changes[0]] && changes[..1][..0] == [];
    var one := Absorb(Net(map[], map[]), changes[0]);
    assert NetOf(changes[..1]) == one;
    assert NetOf(changes) == Absorb(one, changes[1]);
    assert Replay(changes[..1], {u}) == {};
    var xs, ys := changes[..1], [changes[1], changes[0]];
    assert ys[..1] == [ys[0]] && ys[..1][..0] == [];
    assert NetOf(ys[..1]) == Absorb(Net(map[], map[]), ys[0]);
    assert NetOf(ys) == Absorb(NetOf(ys[..1]), ys[1]);
    assert u !in NetOf(ys).added && u !in NetOf(ys).removed;
    var all := xs + ys;
    assert all == [FileChange(t, Removed, u, f), FileChange(t, Added, u, f), FileChange(t, Removed, u, f)];
    assert all[..2] == changes && NetOf(all) == Absorb(NetOf(changes), all[2]);
    assert u !in NetOf(all).removed && u in Compose(NetOf(xs), NetOf(ys)).removed;
  }
}
