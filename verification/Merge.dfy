/** Merging a batch of nodes into an intent tree: what each entry does, what is
    written down for the rollback, and what the rollback brings back. */
module MergeRules {
  import opened Names
  import opened Graph
  import opened IntentTrees

  /** An entry of the batch. */
  datatype NewNode = NewNode(id: Name, intent: string, agent: string, model: string, dependsOn: seq<Name>)

  datatype Effect = Adds | Modifies | Keeps

  function EffectOf(t: Tree, e: NewNode): Effect {
    if e.id !in t then Adds
    else if t[e.id].intent != e.intent then Modifies
    else Keeps
  }

  function AddedNode(e: NewNode): NodeView {
    NodeView(e.intent, e.agent, e.model, "", e.dependsOn, Pending, 0, "", "", 0, 0, 0)
  }

  function ModifiedNode(v: NodeView, e: NewNode): NodeView {
    Reset(v.(intent := e.intent, dependsOn := e.dependsOn))
  }

  /** What the entry makes of its node. */
  function MergedNode(t: Tree, e: NewNode): NodeView {
    match EffectOf(t, e)
    case Adds => AddedNode(e)
    case Modifies => ModifiedNode(t[e.id], e)
    case Keeps => t[e.id].(dependsOn := e.dependsOn)
  }

  datatype Snapshot = Snapshot(id: Name, saved: NodeView)

  /** The tree under construction and the records kept beside it. */
  datatype Log = Log(tree: Tree, added: seq<Name>, snaps: seq<Snapshot>, modified: seq<Name>, kept: seq<Name>)

  function Enter(m: Log, e: NewNode): Log {
    var tree := m.tree[e.id := MergedNode(m.tree, e)];
    match EffectOf(m.tree, e)
    case Adds => m.(tree := tree, added := m.added + [e.id])
    case Modifies => m.(tree := tree, snaps := m.snaps + [Snapshot(e.id, m.tree[e.id])], modified := m.modified + [e.id])
    case Keeps => m.(tree := tree, kept := m.kept + [e.id])
  }

  function EnterAll(t: Tree, batch: seq<NewNode>): Log {
    if batch == [] then Log(t, [], [], [], [])
    else Enter(EnterAll(t, batch[..|batch| - 1]), batch[|batch| - 1])
  }

  /** The fields a snapshot holds, written back. */
  function Restored(v: NodeView, saved: NodeView): NodeView {
    v.(intent := saved.intent, dependsOn := saved.dependsOn, state := saved.state, error := saved.error,
       pid := saved.pid, result := saved.result, retryCount := saved.retryCount)
  }

  datatype Rollback = Rolled(tree: Tree) | Crashed

  /** Writes the snapshots back in order; one whose node is gone is a crash. */
  function WriteBack(t: Tree, snaps: seq<Snapshot>): Rollback {
    if snaps == [] then Rolled(t)
    else if snaps[0].id !in t then Crashed
    else WriteBack(t[snaps[0].id := Restored(t[snaps[0].id], snaps[0].saved)], snaps[1..])
  }

  function RollBack(m: Log): Rollback {
    WriteBack(map n | n in m.tree && n !in m.added :: m.tree[n], m.snaps)
  }

  ghost predicate Acceptable(t: Tree) {
    Closed(DepsOf(t)) && Acyclic(DepsOf(t))
  }

  // --- what a batch says about a node ----------------------------------------------------

  predicate Mentions(batch: seq<NewNode>, n: Name) {
    exists i :: 0 <= i < |batch| && batch[i].id == n
  }

  lemma MentionsMore(batch: seq<NewNode>, n: Name)
    requires batch != []
    ensures Mentions(batch, n) <==> Mentions(batch[..|batch| - 1], n) || batch[|batch| - 1].id == n
  {
    var k := |batch| - 1;
    if Mentions(batch, n) {
      var i :| 0 <= i < |batch| && batch[i].id == n;
      if i < k { assert batch[..k][i].id == n; }
    }
    if Mentions(batch[..k], n) {
      var i :| 0 <= i < k && batch[..k][i].id == n;
      assert batch[i].id == n;
    }
  }

  /** The first entry that names the node. */
  function FirstOf(batch: seq<NewNode>, n: Name): NewNode
    requires Mentions(batch, n)
  {
    var k := |batch| - 1;
    MentionsMore(batch, n);
    if Mentions(batch[..k], n) then FirstOf(batch[..k], n) else batch[k]
  }

  /** The last entry that names the node. */
  function LastOf(batch: seq<NewNode>, n: Name): NewNode
    requires Mentions(batch, n)
  {
    var k := |batch| - 1;
    MentionsMore(batch, n);
    if batch[k].id == n then batch[k] else LastOf(batch[..k], n)
  }

  /** An entry of the batch is the first that names its node. */
  predicate FirstNamed(batch: seq<NewNode>, i: nat) {
    i < |batch| && forall j :: 0 <= j < i ==> batch[j].id != batch[i].id
  }

  predicate LastNamed(batch: seq<NewNode>, i: nat) {
    i < |batch| && forall j :: i < j < |batch| ==> batch[j].id != batch[i].id
  }

  lemma {:induction false} FirstIs(batch: seq<NewNode>, n: Name, i: nat)
    requires FirstNamed(batch, i) && batch[i].id == n
    ensures Mentions(batch, n) && FirstOf(batch, n) == batch[i]
    decreases |batch|
  {
    var k := |batch| - 1;
    assert batch[i].id == n;
    MentionsMore(batch, n);
    if i < k {
      assert batch[..k][i].id == n;
      FirstIs(batch[..k], n, i);
    } else {
      assert !Mentions(batch[..k], n);
    }
  }

  lemma {:induction false} LastIs(batch: seq<NewNode>, n: Name, j: nat)
    requires LastNamed(batch, j) && batch[j].id == n
    ensures Mentions(batch, n) && LastOf(batch, n) == batch[j]
    decreases |batch|
  {
    var k := |batch| - 1;
    assert batch[j].id == n;
    MentionsMore(batch, n);
    if j < k {
      assert batch[..k][j].id == n;
      LastIs(batch[..k], n, j);
    }
  }

  /** Every entry that names the node gives this intent. */
  ghost predicate Agreed(batch: seq<NewNode>, n: Name, intent: string) {
    forall i :: 0 <= i < |batch| && batch[i].id == n ==> batch[i].intent == intent
  }

  lemma AgreedMore(batch: seq<NewNode>, n: Name, intent: string)
    requires batch != []
    ensures var e := batch[|batch| - 1];
            Agreed(batch, n, intent) <==> Agreed(batch[..|batch| - 1], n, intent) && (e.id == n ==> e.intent == intent)
  {
    var k := |batch| - 1;
    if Agreed(batch, n, intent) {
      forall i | 0 <= i < k && batch[..k][i].id == n ensures batch[..k][i].intent == intent {
        assert batch[i] == batch[..k][i];
      }
    }
    if Agreed(batch[..k], n, intent) {
      forall i | 0 <= i < k && batch[i].id == n ensures batch[i].intent == intent {
        assert batch[i] == batch[..k][i];
      }
    }
  }

  lemma {:induction false} AgreedLast(batch: seq<NewNode>, n: Name, intent: string)
    requires Mentions(batch, n) && Agreed(batch, n, intent)
    ensures LastOf(batch, n).intent == intent
  {
    var k := |batch| - 1;
    MentionsMore(batch, n);
    AgreedMore(batch, n, intent);
    if batch[k].id != n {
      AgreedLast(batch[..k], n, intent);
    }
  }

  /** A node after any batch, which may name it more than once: a node of the tree
      keeps its progress exactly if every entry that names it gives the intent it
      had, a new one is as its first entry describes it; both take intent and
      dependencies from the last entry. */
  ghost function Expected(t: Tree, batch: seq<NewNode>, n: Name): NodeView
    requires n in t || Mentions(batch, n)
  {
    if !Mentions(batch, n) then t[n]
    else
      var e := LastOf(batch, n);
      var v :=
        if n !in t then AddedNode(FirstOf(batch, n))
        else if Agreed(batch, n, t[n].intent) then t[n]
        else Reset(t[n]);
      v.(intent := e.intent, dependsOn := e.dependsOn)
  }

  /** The whole tree after any batch. */
  lemma {:induction false} MergeKeepsTheRest(t: Tree, batch: seq<NewNode>, n: Name)
    ensures var u := EnterAll(t, batch).tree;
            && (n in u <==> n in t || Mentions(batch, n))
            && (n in u ==> u[n] == Expected(t, batch, n))
  {
    hide Mentions, Agreed;
    if batch == [] {
      assert !Mentions([], n) by { Nothing(n); }
    } else {
      var k := |batch| - 1;
      var prior := batch[..k];
      MergeKeepsTheRest(t, prior, n);
      MentionsMore(batch, n);
      if n in t {
        AgreedMore(batch, n, t[n].intent);
        if !Mentions(prior, n) {
          NoneDiffers(prior, n, t[n].intent);
        } else if Agreed(prior, n, t[n].intent) {
          AgreedLast(prior, n, t[n].intent);
        }
      }
    }
  }

  /** The fields of a node of the tree that the batch names, entry `j` last: intent and
      dependencies are that entry's; the progress is kept if every entry gives the
      intent the node had, and gone otherwise; the rest is as it was. */
  lemma NamedNode(t: Tree, batch: seq<NewNode>, j: nat)
    requires LastNamed(batch, j) && batch[j].id in t
    ensures var u, v, n := EnterAll(t, batch).tree, t[batch[j].id], batch[j].id;
            n in u && u[n] ==
              if forall i :: 0 <= i < |batch| && batch[i].id == n ==> batch[i].intent == v.intent
              then NodeView(batch[j].intent, v.agent, v.model, v.provider, batch[j].dependsOn, v.state, v.pid, v.result,
                            v.error, v.retryCount, v.maxRetries, v.timeout)
              else NodeView(batch[j].intent, v.agent, v.model, v.provider, batch[j].dependsOn, Pending, 0, "", "", 0,
                            v.maxRetries, v.timeout)
  {
    var n := batch[j].id;
    hide EnterAll;
    MergeKeepsTheRest(t, batch, n);
    LastIs(batch, n, j);
    hide Mentions, LastOf;
  }

  /** A node the tree did not have, entry `i` naming it first and entry `j` last; and
      one the batch does not name. */
  lemma NewOrUnnamedNode(t: Tree, batch: seq<NewNode>, i: nat, j: nat, n: Name)
    ensures var u := EnterAll(t, batch).tree;
            && (FirstNamed(batch, i) && LastNamed(batch, j) && batch[i].id == n == batch[j].id && n !in t ==>
                  n in u && u[n] == NodeView(batch[j].intent, batch[i].agent, batch[i].model, "", batch[j].dependsOn,
                                             Pending, 0, "", "", 0, 0, 0))
            && ((forall k :: 0 <= k < |batch| ==> batch[k].id != n) ==>
                  (n in u <==> n in t) && (n in t ==> u[n] == t[n]))
  {
    hide EnterAll;
    MergeKeepsTheRest(t, batch, n);
    if FirstNamed(batch, i) && LastNamed(batch, j) && batch[i].id == n == batch[j].id {
      FirstIs(batch, n, i);
      LastIs(batch, n, j);
    }
  }

  // --- what the three lists hold -----------------------------------------------------------

  /** Entry `j` is the last before `i` that names the same node. */
  predicate GaveLast(batch: seq<NewNode>, i: int, j: int) {
    0 <= j < i < |batch| && batch[j].id == batch[i].id && forall k :: j < k < i ==> batch[k].id != batch[i].id
  }

  predicate BringsAt(t: Tree, batch: seq<NewNode>, i: nat) {
    FirstNamed(batch, i) && batch[i].id !in t
  }

  /** The entry gives its node another intent than it had by then. */
  ghost predicate ChangesAt(t: Tree, batch: seq<NewNode>, i: nat) {
    || (FirstNamed(batch, i) && batch[i].id in t && t[batch[i].id].intent != batch[i].intent)
    || exists j :: GaveLast(batch, i, j) && batch[j].intent != batch[i].intent
  }

  ghost predicate RepeatsAt(t: Tree, batch: seq<NewNode>, i: nat) {
    || (FirstNamed(batch, i) && batch[i].id in t && t[batch[i].id].intent == batch[i].intent)
    || exists j :: GaveLast(batch, i, j) && batch[j].intent == batch[i].intent
  }

  lemma {:induction false} LastNaming(batch: seq<NewNode>, n: Name) returns (j: nat)
    requires Mentions(batch, n)
    ensures j < |batch| && batch[j].id == n && LastNamed(batch, j)
    decreases |batch|
  {
    var k := |batch| - 1;
    MentionsMore(batch, n);
    if batch[k].id == n { j := k; } else { j := LastNaming(batch[..k], n); }
  }

  /** What an entry does is decided by the entries before it and the tree. */
  lemma EntryDoes(t: Tree, batch: seq<NewNode>)
    requires batch != []
    ensures var k := |batch| - 1; var e := EffectOf(EnterAll(t, batch[..k]).tree, batch[k]);
            && (e == Adds <==> BringsAt(t, batch, k)) && (e == Modifies <==> ChangesAt(t, batch, k))
            && (e == Keeps <==> RepeatsAt(t, batch, k))
  {
    hide EnterAll, Agreed;
    var k := |batch| - 1;
    var prior, n := batch[..k], batch[k].id;
    MergeKeepsTheRest(t, prior, n);
    if Mentions(prior, n) {
      var j := LastNaming(prior, n);
      LastIs(prior, n, j);
      assert forall l :: 0 <= l < k ==> prior[l] == batch[l];
      assert GaveLast(batch, k, j);
      assert !FirstNamed(batch, k) by { assert batch[j].id == n; }
      assert forall l :: GaveLast(batch, k, l) ==> l == j;
    } else {
      assert forall l :: 0 <= l < k ==> prior[l] == batch[l];
      forall l | 0 <= l < k ensures batch[l].id != n { assert prior[l].id != n; }
      assert forall l :: !GaveLast(batch, k, l);
    }
  }

  lemma EarlierEntry(t: Tree, batch: seq<NewNode>, i: nat)
    requires i < |batch| - 1
    ensures var prior := batch[..|batch| - 1];
            && prior[i] == batch[i]
            && (BringsAt(t, batch, i) <==> BringsAt(t, prior, i)) && (ChangesAt(t, batch, i) <==> ChangesAt(t, prior, i))
            && (RepeatsAt(t, batch, i) <==> RepeatsAt(t, prior, i))
  {
    var prior := batch[..|batch| - 1];
    assert forall l :: 0 <= l < |prior| ==> prior[l] == batch[l];
    assert forall j :: GaveLast(batch, i, j) <==> GaveLast(prior, i, j);
  }

  ghost predicate NamesBringing(t: Tree, batch: seq<NewNode>, n: Name) {
    exists i: nat :: BringsAt(t, batch, i) && batch[i].id == n
  }

  ghost predicate NamesChanging(t: Tree, batch: seq<NewNode>, n: Name) {
    exists i: nat :: i < |batch| && ChangesAt(t, batch, i) && batch[i].id == n
  }

  ghost predicate NamesRepeating(t: Tree, batch: seq<NewNode>, n: Name) {
    exists i: nat :: i < |batch| && RepeatsAt(t, batch, i) && batch[i].id == n
  }

  lemma NamesMore(t: Tree, batch: seq<NewNode>, n: Name)
    requires batch != []
    ensures var k := |batch| - 1; var prior := batch[..k];
            && (NamesBringing(t, batch, n) <==> NamesBringing(t, prior, n) || (BringsAt(t, batch, k) && batch[k].id == n))
            && (NamesChanging(t, batch, n) <==> NamesChanging(t, prior, n) || (ChangesAt(t, batch, k) && batch[k].id == n))
            && (NamesRepeating(t, batch, n) <==> NamesRepeating(t, prior, n) || (RepeatsAt(t, batch, k) && batch[k].id == n))
  {
    hide ChangesAt, RepeatsAt, FirstNamed;
    var k := |batch| - 1;
    forall i: nat | i < k
      ensures batch[..k][i] == batch[i] && (BringsAt(t, batch, i) <==> BringsAt(t, batch[..k], i))
      ensures (ChangesAt(t, batch, i) <==> ChangesAt(t, batch[..k], i)) && (RepeatsAt(t, batch, i) <==> RepeatsAt(t, batch[..k], i))
    {
      EarlierEntry(t, batch, i);
    }
    hide BringsAt;
    BringsInRange(t, batch);
    BringsInRange(t, batch[..k]);
  }

  lemma BringsInRange(t: Tree, batch: seq<NewNode>)
    ensures forall i: nat :: BringsAt(t, batch, i) ==> i < |batch|
  {
  }

  /** Every entry is listed once: as added if it is the first to name a node the tree
      did not have, as modified if it changes the intent its node had by then, and
      otherwise as unchanged. */
  lemma {:induction false} ListsAre(t: Tree, batch: seq<NewNode>, n: Name)
    ensures var m := EnterAll(t, batch);
            && |m.added| + |m.modified| + |m.kept| == |batch|
            && (n in m.added <==> NamesBringing(t, batch, n))
            && (n in m.modified <==> NamesChanging(t, batch, n))
            && (n in m.kept <==> NamesRepeating(t, batch, n))
  {
    hide NamesBringing, NamesChanging, NamesRepeating, BringsAt, ChangesAt, RepeatsAt, EffectOf, MergedNode;
    if batch == [] {
      NothingListed(t, n);
    } else {
      var k := |batch| - 1;
      ListsAre(t, batch[..k], n);
      EntryDoes(t, batch);
      NamesMore(t, batch, n);
    }
  }

  lemma NothingListed(t: Tree, n: Name)
    ensures !NamesBringing(t, [], n) && !NamesChanging(t, [], n) && !NamesRepeating(t, [], n)
  {
  }

  // --- what is recorded for the rollback ----------------------------------------------------

  predicate Saved(snaps: seq<Snapshot>, n: Name) {
    exists k :: 0 <= k < |snaps| && snaps[k].id == n
  }

  lemma SavedMore(snaps: seq<Snapshot>, s: Snapshot, n: Name)
    ensures Saved(snaps + [s], n) <==> Saved(snaps, n) || s.id == n
  {
    if Saved(snaps, n) {
      var k :| 0 <= k < |snaps| && snaps[k].id == n;
      assert (snaps + [s])[k].id == n;
    }
    if s.id == n {
      assert (snaps + [s])[|snaps|].id == n;
    }
  }

  function LastSaved(snaps: seq<Snapshot>, n: Name): NodeView
    requires Saved(snaps, n)
  {
    var k := |snaps| - 1;
    assert snaps[..k] + [snaps[k]] == snaps;
    SavedMore(snaps[..k], snaps[k], n);
    if snaps[k].id == n then snaps[k].saved else LastSaved(snaps[..k], n)
  }

  /** Two entries name the node and give different intents. */
  ghost predicate Conflict(batch: seq<NewNode>, n: Name) {
    exists i :: 0 <= i < |batch| && batch[i].id == n && Differs(batch[..i], n, batch[i].intent)
  }

  ghost predicate Differs(batch: seq<NewNode>, n: Name, intent: string) {
    !Agreed(batch, n, intent)
  }

  lemma ConflictMore(batch: seq<NewNode>, n: Name)
    requires batch != []
    ensures var k := |batch| - 1;
            Conflict(batch, n) <==>
              Conflict(batch[..k], n) || (batch[k].id == n && Differs(batch[..k], n, batch[k].intent))
  {
    hide Differs;
    var k := |batch| - 1;
    if Conflict(batch, n) {
      var i :| 0 <= i < |batch| && batch[i].id == n && Differs(batch[..i], n, batch[i].intent);
      if i < k { assert batch[..k][i] == batch[i] && batch[..k][..i] == batch[..i]; }
    }
    if Conflict(batch[..k], n) {
      var i :| 0 <= i < k && batch[..k][i].id == n && Differs(batch[..k][..i], n, batch[..k][i].intent);
      assert batch[i] == batch[..k][i] && batch[..k][..i] == batch[..i];
    }
  }

  /** Without a conflict all entries agree with the last one. */
  lemma {:induction false} PeacefulAgree(batch: seq<NewNode>, n: Name)
    requires Mentions(batch, n) && !Conflict(batch, n)
    ensures Agreed(batch, n, LastOf(batch, n).intent)
  {
    var k := |batch| - 1;
    MentionsMore(batch, n);
    ConflictMore(batch, n);
    AgreedMore(batch, n, LastOf(batch, n).intent);
    if batch[k].id != n {
      PeacefulAgree(batch[..k], n);
    }
  }

  /** A snapshot of a node the batch itself added is taken exactly if two entries
      disagree about its intent. */
  lemma {:induction false} RecordsAre(t: Tree, batch: seq<NewNode>, n: Name)
    ensures var m := EnterAll(t, batch);
            && (n in m.added <==> n !in t && Mentions(batch, n))
            && (Saved(m.snaps, n) ==> n in m.tree)
            && (n !in t ==> (Saved(m.snaps, n) <==> Conflict(batch, n)))
  {
    hide Mentions, Conflict, Differs, Agreed, LastOf, FirstOf;
    if batch == [] {
      assert !Mentions(batch, n) && !Conflict(batch, n) by { Nothing(n); }
    } else {
      var k := |batch| - 1;
      var prior := batch[..k];
      RecordsAre(t, prior, n);
      MentionsMore(batch, n);
      ConflictMore(batch, n);
      MergeKeepsTheRest(t, prior, n);
      var m := EnterAll(t, prior);
      if EffectOf(m.tree, batch[k]) == Modifies {
        SavedMore(m.snaps, Snapshot(batch[k].id, m.tree[batch[k].id]), n);
      }
      if n !in t && batch[k].id == n && !Conflict(prior, n) {
        if Mentions(prior, n) {
          PeacefulAgree(prior, n);
          AgreedOne(prior, n, LastOf(prior, n).intent, batch[k].intent);
        } else {
          assert !Differs(prior, n, batch[k].intent) by { NoneDiffers(prior, n, batch[k].intent); }
        }
      }
    }
  }

  lemma Nothing(n: Name)
    ensures !Mentions([], n) && !Conflict([], n)
  {
  }

  lemma NoneDiffers(batch: seq<NewNode>, n: Name, intent: string)
    requires !Mentions(batch, n)
    ensures !Differs(batch, n, intent)
  {
  }

  lemma AgreedOne(batch: seq<NewNode>, n: Name, a: string, b: string)
    requires Mentions(batch, n) && Agreed(batch, n, a)
    ensures Differs(batch, n, b) <==> a != b
  {
  }

  // --- the rollback --------------------------------------------------------------------

  lemma {:induction false} WriteBackMore(u: Tree, snaps: seq<Snapshot>, s: Snapshot)
    ensures WriteBack(u, snaps + [s]) ==
              var r := WriteBack(u, snaps);
              if r.Crashed? || s.id !in r.tree then Crashed
              else Rolled(r.tree[s.id := Restored(r.tree[s.id], s.saved)])
  {
    if snaps == [] {
      assert snaps + [s] == [s];
    } else {
      assert (snaps + [s])[1..] == snaps[1..] + [s];
      if snaps[0].id in u {
        WriteBackMore(u[snaps[0].id := Restored(u[snaps[0].id], snaps[0].saved)], snaps[1..], s);
      }
    }
  }

  /** Writing the snapshots back crashes exactly if the node of one is gone. */
  lemma {:induction false} WriteBackCrash(u: Tree, snaps: seq<Snapshot>)
    ensures WriteBack(u, snaps).Crashed? <==> exists k :: 0 <= k < |snaps| && snaps[k].id !in u
    ensures WriteBack(u, snaps).Rolled? ==> WriteBack(u, snaps).tree.Keys == u.Keys
    decreases |snaps|
  {
    if snaps != [] {
      var rest := snaps[1..];
      assert forall k :: 0 <= k < |rest| ==> rest[k] == snaps[k + 1];
      assert forall k :: 1 <= k < |snaps| ==> snaps[k] == rest[k - 1];
      if snaps[0].id in u {
        WriteBackCrash(u[snaps[0].id := Restored(u[snaps[0].id], snaps[0].saved)], rest);
      }
    }
  }

  /** The last snapshot of a node decides what is written back. */
  lemma {:induction false} WriteBackNode(u: Tree, snaps: seq<Snapshot>, n: Name)
    requires WriteBack(u, snaps).Rolled? && n in u
    ensures var r := WriteBack(u, snaps).tree;
            n in r && r[n] == if Saved(snaps, n) then Restored(u[n], LastSaved(snaps, n)) else u[n]
  {
    hide WriteBack, Saved, LastSaved, Restored;
    if snaps == [] {
      NothingSaved(n);
      assert WriteBack(u, []) == Rolled(u) by { NothingWritten(u); }
    } else {
      var k := |snaps| - 1;
      assert snaps[..k] + [snaps[k]] == snaps;
      WriteBackMore(u, snaps[..k], snaps[k]);
      SavedMore(snaps[..k], snaps[k], n);
      WriteBackNode(u, snaps[..k], n);
      if Saved(snaps, n) { LastSavedMore(snaps[..k], snaps[k], n); }
      if Saved(snaps[..k], n) {
        RestoredTwice(u[n], LastSaved(snaps[..k], n), snaps[k].saved);
      }
    }
  }

  lemma NothingWritten(u: Tree)
    ensures WriteBack(u, []) == Rolled(u)
  {
  }

  lemma RestoredTwice(v: NodeView, a: NodeView, b: NodeView)
    ensures Restored(Restored(v, a), b) == Restored(v, b)
  {
  }

  lemma LastSavedMore(snaps: seq<Snapshot>, s: Snapshot, n: Name)
    requires Saved(snaps + [s], n)
    ensures s.id == n ==> LastSaved(snaps + [s], n) == s.saved
    ensures s.id != n ==> Saved(snaps, n) && LastSaved(snaps + [s], n) == LastSaved(snaps, n)
  {
    SavedMore(snaps, s, n);
    assert (snaps + [s])[..|snaps|] == snaps;
  }

  /** Two entries give different intents for an id the tree does not have. */
  ghost predicate Conflicts(t: Tree, batch: seq<NewNode>) {
    exists i, j :: 0 <= i < j < |batch| && batch[i].id == batch[j].id && batch[i].id !in t
                   && batch[i].intent != batch[j].intent
  }

  lemma ConflictAt(t: Tree, batch: seq<NewNode>)
    ensures Conflicts(t, batch) <==> exists n :: n !in t && Conflict(batch, n)
  {
    if Conflicts(t, batch) {
      var i, j :| 0 <= i < j < |batch| && batch[i].id == batch[j].id && batch[i].id !in t
                  && batch[i].intent != batch[j].intent;
      assert batch[..j][i] == batch[i];
      assert Differs(batch[..j], batch[j].id, batch[j].intent);
      assert Conflict(batch, batch[j].id);
    }
    if n :| n !in t && Conflict(batch, n) {
      var j :| 0 <= j < |batch| && batch[j].id == n && Differs(batch[..j], n, batch[j].intent);
      var i :| 0 <= i < j && batch[..j][i].id == n && batch[..j][i].intent != batch[j].intent;
      assert batch[i] == batch[..j][i];
    }
  }

  /** Undoing a batch looks for a node it has just deleted exactly if two entries
      give different intents for an id the tree does not have. */
  lemma RollbackCrash(t: Tree, batch: seq<NewNode>)
    ensures RollBack(EnterAll(t, batch)).Crashed? <==> Conflicts(t, batch)
  {
    var m := EnterAll(t, batch);
    var u := map n | n in m.tree && n !in m.added :: m.tree[n];
    hide EnterAll, Conflict, Conflicts;
    WriteBackCrash(u, m.snaps);
    ConflictAt(t, batch);
    if k :| 0 <= k < |m.snaps| && m.snaps[k].id !in u {
      RecordsAre(t, batch, m.snaps[k].id);
    }
    if n :| n !in t && Conflict(batch, n) {
      RecordsAre(t, batch, n);
      MergeKeepsTheRest(t, batch, n);
      var k :| 0 <= k < |m.snaps| && m.snaps[k].id == n;
    }
  }

  /** The intent a node has after a batch. */
  function IntentAfter(t: Tree, batch: seq<NewNode>, n: Name): string
    requires n in t
  {
    if Mentions(batch, n) then LastOf(batch, n).intent else t[n].intent
  }

  /** How much of the batch precedes the last change of the node's intent; all of it
      if the intent never changes. */
  function LastChange(t: Tree, batch: seq<NewNode>, n: Name): (c: nat)
    requires n in t
    ensures c <= |batch|
  {
    if batch == [] then 0
    else
      var k := |batch| - 1;
      if batch[k].id == n && batch[k].intent != IntentAfter(t, batch[..k], n) then k
      else
        var c := LastChange(t, batch[..k], n);
        if c == k then |batch| else c
  }

  /** That is the last entry that changes the node's intent. */
  lemma {:induction false} LastChangeIs(t: Tree, batch: seq<NewNode>, n: Name)
    requires n in t
    ensures var c := LastChange(t, batch, n);
            && (c < |batch| ==> batch[c].id == n && ChangesAt(t, batch, c))
            && forall i: nat :: i < |batch| && batch[i].id == n && (i > c || c == |batch|) ==> !ChangesAt(t, batch, i)
  {
    hide ChangesAt, IntentAfter, MergedNode;
    if batch != [] {
      var k := |batch| - 1;
      var prior := batch[..k];
      LastChangeIs(t, prior, n);
      EntryDoes(t, batch);
      IntentIs(t, prior, n);
      forall i: nat | i < k ensures prior[i] == batch[i] && (ChangesAt(t, batch, i) <==> ChangesAt(t, prior, i)) {
        EarlierEntry(t, batch, i);
      }
    }
  }

  lemma {:induction false} LastSavedIs(t: Tree, batch: seq<NewNode>, n: Name)
    requires n in t
    ensures var m, c := EnterAll(t, batch), LastChange(t, batch, n);
            && (Saved(m.snaps, n) <==> c < |batch|)
            && n in EnterAll(t, batch[..c]).tree
            && (c < |batch| ==> LastSaved(m.snaps, n) == EnterAll(t, batch[..c]).tree[n])
  {
    hide Mentions, IntentAfter, Saved, LastSaved, MergedNode;
    IntentIs(t, batch[..LastChange(t, batch, n)], n);
    if batch == [] {
      NothingSaved(n);
    } else {
      var k := |batch| - 1;
      var prior := batch[..k];
      LastSavedIs(t, prior, n);
      IntentIs(t, prior, n);
      var m, c := EnterAll(t, prior), LastChange(t, prior, n);
      assert c < k ==> prior[..c] == batch[..c];
      if EffectOf(m.tree, batch[k]) == Modifies {
        var s := Snapshot(batch[k].id, m.tree[batch[k].id]);
        SavedMore(m.snaps, s, n);
        if Saved(m.snaps + [s], n) { LastSavedMore(m.snaps, s, n); }
      }
    }
  }

  lemma IntentIs(t: Tree, batch: seq<NewNode>, n: Name)
    requires n in t
    ensures n in EnterAll(t, batch).tree && EnterAll(t, batch).tree[n].intent == IntentAfter(t, batch, n)
  {
    hide EnterAll, Agreed, LastOf, FirstOf, Mentions;
    MergeKeepsTheRest(t, batch, n);
  }

  lemma NothingSaved(n: Name)
    ensures !Saved([], n)
  {
  }

  /** A node after the rollback is as it was before the last change of its intent. */
  lemma RolledNode(t: Tree, batch: seq<NewNode>, n: Name)
    requires n in t && !Conflicts(t, batch)
    ensures var r, c := RollBack(EnterAll(t, batch)), LastChange(t, batch, n);
            && r.Rolled? && n in r.tree
            && r.tree[n] == Expected(t, batch[..c], n)
  {
    var m, c := EnterAll(t, batch), LastChange(t, batch, n);
    var u := map k | k in m.tree && k !in m.added :: m.tree[k];
    hide EnterAll, LastChange, Mentions, LastOf, FirstOf, Agreed, Conflicts;
    RollbackCrash(t, batch);
    RecordsAre(t, batch, n);
    MergeKeepsTheRest(t, batch, n);
    MergeKeepsTheRest(t, batch[..c], n);
    WriteBackNode(u, m.snaps, n);
    LastSavedIs(t, batch, n);
    assert c == |batch| ==> batch[..c] == batch;
  }

  lemma RolledKeys(t: Tree, batch: seq<NewNode>)
    requires !Conflicts(t, batch)
    ensures RollBack(EnterAll(t, batch)).Rolled? && RollBack(EnterAll(t, batch)).tree.Keys == t.Keys
  {
    var m := EnterAll(t, batch);
    var u := map n | n in m.tree && n !in m.added :: m.tree[n];
    hide EnterAll, Mentions, Expected, Conflicts;
    RollbackCrash(t, batch);
    WriteBackCrash(u, m.snaps);
    forall n ensures n in u <==> n in t {
      RecordsAre(t, batch, n);
      MergeKeepsTheRest(t, batch, n);
    }
  }

  /** What was said of the node before the last change of its intent leaves it as
      it is: nothing, or finally its own intent and dependencies, without a change
      of intent on the way unless the node had no progress to lose. */
  ghost predicate Harmless(t: Tree, batch: seq<NewNode>, n: Name)
    requires n in t
  {
    var prior := batch[..LastChange(t, batch, n)];
    Mentions(prior, n) ==>
      && LastOf(prior, n).intent == t[n].intent && LastOf(prior, n).dependsOn == t[n].dependsOn
      && (Agreed(prior, n, t[n].intent) || NoProgress(t[n]))
  }

  predicate NoProgress(v: NodeView) {
    v.state == Pending && v.error == "" && v.pid == 0 && v.result == "" && v.retryCount == 0
  }

  /** A refused merge leaves the tree as it was exactly if it does not crash and
      every node was harmlessly spoken of before the last change of its intent. */
  lemma RollbackExact(t: Tree, batch: seq<NewNode>)
    ensures RollBack(EnterAll(t, batch)) == Rolled(t) <==>
              !Conflicts(t, batch) && forall n :: n in t ==> Harmless(t, batch, n)
  {
    hide EnterAll, RollBack, Conflicts, Harmless;
    RollbackCrash(t, batch);
    if !Conflicts(t, batch) {
      RolledKeys(t, batch);
      var r := RollBack(EnterAll(t, batch)).tree;
      forall n | n in t ensures r[n] == t[n] <==> Harmless(t, batch, n) {
        RolledNode(t, batch, n);
        HarmlessIs(t, batch, n);
      }
      if forall n :: n in t ==> Harmless(t, batch, n) {
        assert r == t;
      }
    }
  }

  lemma HarmlessIs(t: Tree, batch: seq<NewNode>, n: Name)
    requires n in t
    ensures Harmless(t, batch, n) <==> Expected(t, batch[..LastChange(t, batch, n)], n) == t[n]
  {
    hide LastChange, Mentions, LastOf, Agreed;
  }

  /** A rollback that does not restore: an entry with its node's own intent and a
      new dependency on an unknown node. */
  lemma RollbackCanMiss() returns (t: Tree, batch: seq<NewNode>)
    ensures |batch| == 1 && Acceptable(t) && !Acceptable(EnterAll(t, batch).tree)
    ensures RollBack(EnterAll(t, batch)).Rolled? && RollBack(EnterAll(t, batch)) != Rolled(t)
  {
    var n, ghostly := Name("a"), Name("b");
    t := map[n := NodeView("i", "", "", "", [], Pending, 0, "", "", 0, 0, 0)];
    batch := [NewNode(n, "i", "", "", [ghostly])];
    RankedIsAcyclic(DepsOf(t), map[]);
    assert batch[..0] == [];
    assert EnterAll(t, batch) == Enter(EnterAll(t, []), batch[0]);
    assert EffectOf(t, batch[0]) == Keeps;
    assert Edge(DepsOf(EnterAll(t, batch).tree), ghostly, n);
    assert n !in EnterAll(t, batch).added;
  }

  /** A batch that names a new node twice, with different intents, and does not
      make a DAG: undoing it dereferences a node that is gone. */
  lemma RollbackCanCrash() returns (t: Tree, batch: seq<NewNode>)
    ensures |batch| == 2 && Acceptable(t) && !Acceptable(EnterAll(t, batch).tree)
    ensures RollBack(EnterAll(t, batch)).Crashed?
  {
    var n, ghostly := Name("a"), Name("b");
    t := map[];
    batch := [NewNode(n, "i", "", "", []), NewNode(n, "j", "", "", [ghostly])];
    RankedIsAcyclic(DepsOf(t), map[]);
    RollbackCrash(t, batch);
    assert batch[0].id == batch[1].id && batch[0].intent[0] != batch[1].intent[0];
    MergeKeepsTheRest(t, batch, n);
    MergeKeepsTheRest(t, batch, ghostly);
    assert batch[1].id == n;
    assert EnterAll(t, batch).tree[n].dependsOn == [ghostly];
    assert Edge(DepsOf(EnterAll(t, batch).tree), ghostly, n);
  }

  // --- any batch -------------------------------------------------------------------------

  /** Whatever the batch, each node ends pending or as it was but for its
      dependencies. */
  lemma {:induction false} MergedStates(t: Tree, batch: seq<NewNode>, n: Name)
    ensures var u := EnterAll(t, batch).tree;
            && (n in t ==> n in u)
            && (n in u ==> u[n].state == Pending || (n in t && u[n] == t[n].(dependsOn := u[n].dependsOn)))
  {
    if batch != [] {
      MergedStates(t, batch[..|batch| - 1], n);
    }
  }
}
