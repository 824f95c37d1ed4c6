/** The incremental merge on the heap: entries are written into the tree one by
    one, with snapshots kept, and undone if the result does not make a DAG. */
module IntentMerge {
  import opened Names
  import opened Graph
  import opened IntentTrees
  import opened IntentTypes
  import opened MergeRules
  import opened DagBuilding

  /** `Panicked` stands for the nil dereference of a rollback that looks for a
      node it has just deleted. */
  datatype MergeOutcome =
    | Merged(added: seq<Name>, modified: seq<Name>, kept: seq<Name>)
    | Refused(error: BuildError)
    | Panicked

  /** Writes one entry into the tree. */
  method MergeEntry(tree: IntentTree, e: NewNode)
    requires tree.Valid()
    modifies tree`nodes, if e.id in tree.nodes then {tree.nodes[e.id]} else {}
    ensures tree.Valid()
    ensures tree.View() == old(tree.View())[e.id := MergedNode(old(tree.View()), e)]
    ensures if e.id in old(tree.nodes) then tree.nodes == old(tree.nodes)
            else e.id in tree.nodes && fresh(tree.nodes[e.id]) && tree.nodes == old(tree.nodes)[e.id := tree.nodes[e.id]]
  {
    if e.id !in tree.nodes {
      var node := new IntentNode(e.id, AddedNode(e));
      tree.nodes := tree.nodes[e.id := node];
    } else {
      var node := tree.nodes[e.id];
      if node.intent != e.intent {
        node.Redefine(e.intent, e.dependsOn);
        tree.ResetNode(e.id);
      } else {
        node.dependsOn := e.dependsOn;
      }
      assert forall k :: k in tree.nodes && k != e.id ==> tree.nodes[k] != node;
    }
  }

  /** Writes the whole batch, keeping the records a rollback needs. */
  method EnterBatch(tree: IntentTree, batch: seq<NewNode>) returns (ghost m: Log,
      added: seq<Name>, snaps: seq<Snapshot>, modified: seq<Name>, kept: seq<Name>)
    requires tree.Valid()
    modifies tree`nodes, tree.Objects()
    ensures tree.Valid() && m == EnterAll(old(tree.View()), batch)
    ensures tree.View() == m.tree
    ensures added == m.added && snaps == m.snaps && modified == m.modified && kept == m.kept
    ensures fresh(tree.Objects() - old(tree.Objects()))
  {
    hide MergedNode;
    ghost var t := tree.View();
    added, snaps, modified, kept := [], [], [], [];
    m := EnterAll(t, []);
    assert batch[..0] == [];
    for i := 0 to |batch|
      invariant tree.Valid() && m == EnterAll(t, batch[..i]) && tree.View() == m.tree
      invariant added == m.added && snaps == m.snaps && modified == m.modified && kept == m.kept
      invariant fresh(tree.Objects() - old(tree.Objects()))
    {
      var e := batch[i];
      assert batch[..i + 1][..i] == batch[..i] && batch[..i + 1][i] == e;
      if e.id !in tree.nodes {
        added := added + [e.id];
      } else if tree.nodes[e.id].intent != e.intent {
        snaps := snaps + [Snapshot(e.id, tree.nodes[e.id].Fields())];
        modified := modified + [e.id];
      } else {
        kept := kept + [e.id];
      }
      MergeEntry(tree, e);
      m := Enter(m, e);
    }
    assert batch[..|batch|] == batch;
  }

  /** Deletes the added nodes and writes the snapshots back in order. */
  method UndoBatch(tree: IntentTree, ghost m: Log, added: seq<Name>, snaps: seq<Snapshot>) returns (panicked: bool)
    requires tree.Valid() && tree.View() == m.tree && added == m.added && snaps == m.snaps
    modifies tree`nodes, tree.Objects()
    ensures tree.Valid() && tree.Objects() <= old(tree.Objects())
    ensures panicked <==> RollBack(m).Crashed?
    ensures !panicked ==> tree.View() == RollBack(m).tree
  {
    tree.nodes := map n | n in tree.nodes && n !in added :: tree.nodes[n];
    ghost var goal := RollBack(m);
    ghost var here := tree.nodes;
    assert tree.View() == map n | n in m.tree && n !in m.added :: m.tree[n];
    assert snaps[0..] == snaps;
    hide RollBack, Restored;
    for k := 0 to |snaps|
      invariant tree.Valid() && tree.nodes == here
      invariant WriteBack(tree.View(), snaps[k..]) == goal
    {
      var s := snaps[k];
      assert snaps[k..][0] == s && snaps[k..][1..] == snaps[k + 1..];
      if s.id !in tree.nodes {
        return true;
      }
      WriteSnapshot(tree, s);
    }
    assert snaps[|snaps|..] == [];
    return false;
  }

  method WriteSnapshot(tree: IntentTree, s: Snapshot)
    requires tree.Valid() && s.id in tree.nodes
    modifies tree.nodes[s.id]
    ensures tree.View() == old(tree.View())[s.id := Restored(old(tree.View())[s.id], s.saved)]
  {
    var node := tree.nodes[s.id];
    node.WriteSaved(s.saved);
    assert forall k :: k in tree.nodes && k != s.id ==> tree.nodes[k] != node;
  }

  method DependencyLists(tree: IntentTree) returns (deps: Deps)
    requires tree.Valid()
    ensures deps == DepsOf(tree.View())
  {
    deps := map n | n in tree.nodes :: tree.nodes[n].dependsOn;
  }

  /** Merges a batch.  A result that is not a DAG of known nodes is refused and
      rolled back; otherwise the added nodes also become desired. */
  method MergeIncremental(tree: IntentTree, batch: seq<NewNode>) returns (outcome: MergeOutcome, ghost m: Log)
    requires tree.Valid()
    modifies tree`nodes, tree`desired, tree.Objects()
    ensures tree.Valid() && m == EnterAll(old(tree.View()), batch)
    ensures fresh(tree.Objects() - old(tree.Objects()))
    ensures outcome.Merged? <==> Acceptable(m.tree)
    ensures outcome.Merged? ==>
              && tree.View() == m.tree
              && outcome == Merged(Sort(m.added), Sort(m.modified), Sort(m.kept))
              && tree.desired == old(tree.desired) + map n | n in m.added :: Completed
    ensures outcome.Panicked? <==> !Acceptable(m.tree) && Conflicts(old(tree.View()), batch)
    ensures outcome.Refused? ==> RollBack(m) == Rolled(tree.View())
    ensures !outcome.Merged? ==> tree.desired == old(tree.desired)
  {
    hide Closed, Acyclic, EnterAll, RollBack, Conflicts, Sort, DepsOf, IntentTree.View, IntentTree.Valid;
    RollbackCrash(tree.View(), batch);
    var added: seq<Name>, snaps: seq<Snapshot>, modified: seq<Name>, kept: seq<Name>;
    m, added, snaps, modified, kept := EnterBatch(tree, batch);
    var deps := DependencyLists(tree);
    var built := BuildIntentDag(deps);
    if built.Rejected? {
      var panicked := UndoBatch(tree, m, added, snaps);
      return (if panicked then Panicked else Refused(built.error)), m;
    }
    tree.desired := tree.desired + map n | n in added :: Completed;
    return Merged(Sort(added), Sort(modified), Sort(kept)), m;
  }
}
