/** The commit loop as a node runs it: decide the round at the cursor, apply the
    decided anchor's batch vertex by vertex, advance. Proved to take exactly the steps
    of module CommitLog. */
module CommitLoop {
  import opened Common
  import opened Dag
  import opened VertexStore
  import opened Anchor
  import opened AnchorNode
  import opened CommitLog

  /** `node` decides under the context the decisions so far have made. */
  class Committer {
    const context: Context
    const store: Store
    ghost const base: set<Hash>
    var node: Node
    var log: seq<Hash>
    var cursor: nat
    var decisions: seq<Option<Hash>>

    ghost predicate Valid()
      reads this, store
    {
      store.Valid() && node.store == store && node.cfg == context(decisions)
    }

    ghost function State(): Chain
      reads this, store
    {
      Chain(store.AsView(), base, log, cursor, decisions)
    }

    constructor (context: Context, store: Store, cursor: nat)
      requires store.Valid()
      ensures Valid() && this.context == context && this.store == store
      ensures State() == Chain(store.AsView(), store.committed, [], cursor, [])
    {
      this.context, this.store, this.base, this.cursor := context, store, store.committed, cursor;
      this.log, this.decisions := [], [];
      this.node := new Node(context([]), store);
    }

    /** Apply a batch in order, marking each vertex committed as it is applied. */
    method ApplyBatch(batch: seq<Hash>)
      requires Valid()
      modifies this`log, store`committed
      ensures Valid()
      ensures log == old(log) + batch
      ensures store.committed == old(store.committed) + Elements(batch)
    {
      for i := 0 to |batch|
        invariant Valid()
        invariant log == old(log) + batch[..i]
        invariant store.committed == old(store.committed) + Elements(batch[..i])
      {
        assert batch[..i + 1] == batch[..i] + [batch[i]];
        log := log + [batch[i]];
        store.MarkCommitted(batch[i]);
      }
      assert batch[..|batch|] == batch;
    }

    /** One pass at the cursor; false when the round is undecided or an ancestor is missing. */
    method CommitNextRound() returns (advanced: bool)
      requires Valid()
      modifies this, store`committed
      ensures Valid()
      ensures State() == Tick(context, old(State()))
      ensures advanced <==> cursor == old(cursor) + 1
      ensures !advanced ==> State() == old(State())
    {
      hide AnchorStatus, Complete;
      var status := node.DecideRound(cursor);
      match status {
        case Wait =>
          return false;
        case Skip =>
          decisions := decisions + [None];
        case Commit(anchor) =>
          var batch, ok := store.CausalBatch(anchor);
          if !ok {
            return false;
          }
          ghost var expected := Batch(store.AsView(), anchor);
          assert batch == expected;
          ApplyBatch(batch);
          decisions := decisions + [Some(anchor)];
      }
      cursor := cursor + 1;
      node := new Node(context(decisions), store);
      assert Elements<Hash>([]) == {};
      return true;
    }
  }
}
