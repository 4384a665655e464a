/** The committed log of the directory: chunks of updates under a chain of headers, and the tree they add up to. */
module DirectoryLog {
  import opened Common
  import opened DirectoryHistory

  type Updates = map<string, seq<Update>>

  /** The sparse Merkle tree as a map from directory keys to histories; its root is `OfTree`. */
  type Tree = map<string, seq<Update>>

  datatype Chunk = Chunk(header: Header, updates: Updates)

  /** The rows of the headers and chunks tables, which are inserted together; the height is the position. */
  type Log = seq<Chunk>

  function HistoryIn(tree: Tree, key: string): seq<Update> {
    if key in tree then tree[key] else []
  }

  function ApplyUpdates(tree: Tree, updates: Updates): (r: Tree)
    ensures forall key :: HistoryIn(r, key) == HistoryIn(tree, key) + HistoryIn(updates, key)
  {
    map key | key in tree.Keys + updates.Keys ::
      if key in updates then HistoryIn(tree, key) + updates[key] else tree[key]
  }

  function TreeOf(log: Log): Tree {
    if log == [] then map[] else ApplyUpdates(TreeOf(log[..|log| - 1]), log[|log| - 1].updates)
  }

  /** All updates committed for a key, in order. */
  function Committed(log: Log, key: string): seq<Update> {
    if log == [] then [] else Committed(log[..|log| - 1], key) + HistoryIn(log[|log| - 1].updates, key)
  }

  /** The hash the next header must link to. */
  function HeadHash(log: Log): Hash {
    if log == [] then Zero else OfHeader(log[|log| - 1].header)
  }

  predicate Extends(verifies: Verifier, tree: Tree, updates: Updates) {
    forall key | key in updates :: Verified(verifies, HistoryIn(tree, key) + updates[key])
  }

  /** What one more chunk must satisfy. */
  predicate ValidNext(verifies: Verifier, log: Log, chunk: Chunk) {
    && chunk.header.prev == HeadHash(log)
    && chunk.header.root == OfTree(ApplyUpdates(TreeOf(log), chunk.updates))
    && Extends(verifies, TreeOf(log), chunk.updates)
  }

  ghost predicate ValidLog(verifies: Verifier, log: Log) {
    log != [] ==> ValidLog(verifies, log[..|log| - 1]) && ValidNext(verifies, log[..|log| - 1], log[|log| - 1])
  }

  /** What validity says about the last chunk. */
  lemma ValidHead(verifies: Verifier, log: Log)
    requires ValidLog(verifies, log) && log != []
    ensures var front, head := log[..|log| - 1], log[|log| - 1];
            && ValidLog(verifies, front) && ValidNext(verifies, front, head)
            && head.header.prev == HeadHash(front) && head.header.root == OfTree(TreeOf(log))
  {
  }

  lemma ValidAppend(verifies: Verifier, log: Log, chunk: Chunk)
    requires ValidLog(verifies, log)
    ensures ValidLog(verifies, log + [chunk]) <==> ValidNext(verifies, log, chunk)
    ensures TreeOf(log + [chunk]) == ApplyUpdates(TreeOf(log), chunk.updates)
    ensures forall key :: Committed(log + [chunk], key) == Committed(log, key) + HistoryIn(chunk.updates, key)
  {
    assert (log + [chunk])[..|log|] == log;
  }

  lemma {:induction false} ValidPrefix(verifies: Verifier, log: Log, n: nat)
    requires ValidLog(verifies, log) && n <= |log|
    ensures ValidLog(verifies, log[..n])
    decreases |log|
  {
    if n < |log| {
      assert log[..|log| - 1][..n] == log[..n];
      ValidPrefix(verifies, log[..|log| - 1], n);
    } else {
      assert log[..n] == log;
    }
  }

  /** The tree at any height maps each key to the concatenation of its updates. */
  lemma {:induction false} TreeIsCommitted(log: Log, key: string)
    ensures HistoryIn(TreeOf(log), key) == Committed(log, key)
    decreases |log|
  {
    if log != [] {
      TreeIsCommitted(log[..|log| - 1], key);
    }
  }

  lemma {:induction false} CommittedVerified(verifies: Verifier, log: Log, key: string)
    requires ValidLog(verifies, log)
    ensures Verified(verifies, Committed(log, key))
    decreases |log|
  {
    if log != [] {
      var n := |log| - 1;
      TreeIsCommitted(log[..n], key);
      CommittedVerified(verifies, log[..n], key);
      assert key !in log[n].updates ==> Committed(log, key) == Committed(log[..n], key);
    }
  }

  lemma {:induction false} CommittedGrows(log: Log, n: nat, key: string)
    requires n <= |log|
    ensures Committed(log[..n], key) <= Committed(log, key)
    decreases |log|
  {
    if n < |log| {
      assert log[..|log| - 1][..n] == log[..n];
      CommittedGrows(log[..|log| - 1], n, key);
    } else {
      assert log[..n] == log;
    }
  }

  /** Everything a reader may rely on at height `n` of a valid log. */
  lemma StateAtHeight(verifies: Verifier, log: Log, n: nat, key: string)
    requires ValidLog(verifies, log) && n < |log|
    ensures log[n].header.root == OfTree(TreeOf(log[..n + 1]))
    ensures log[n].header.prev == if n == 0 then Zero else OfHeader(log[n - 1].header)
    ensures HistoryIn(TreeOf(log[..n + 1]), key) == Committed(log[..n + 1], key)
    ensures Verified(verifies, Committed(log[..n + 1], key))
    ensures Committed(log[..n], key) <= Committed(log[..n + 1], key) <= Committed(log, key)
  {
    HeaderAtHeight(verifies, log, n);
    TreeIsCommitted(log[..n + 1], key);
    VerifiedAtHeight(verifies, log, n, key);
    GrowsAtHeight(log, n, key);
  }

  lemma VerifiedAtHeight(verifies: Verifier, log: Log, n: nat, key: string)
    requires ValidLog(verifies, log) && n < |log|
    ensures Verified(verifies, Committed(log[..n + 1], key))
  {
    HeaderAtHeight(verifies, log, n);
    CommittedVerified(verifies, log[..n + 1], key);
  }

  lemma GrowsAtHeight(log: Log, n: nat, key: string)
    requires n < |log|
    ensures Committed(log[..n], key) <= Committed(log[..n + 1], key) <= Committed(log, key)
  {
    assert log[..n + 1][..n] == log[..n];
    CommittedGrows(log[..n + 1], n, key);
    CommittedGrows(log, n + 1, key);
  }

  lemma HeaderAtHeight(verifies: Verifier, log: Log, n: nat)
    requires ValidLog(verifies, log) && n < |log|
    ensures ValidLog(verifies, log[..n + 1])
    ensures log[n].header.root == OfTree(TreeOf(log[..n + 1]))
    ensures log[n].header.prev == if n == 0 then Zero else OfHeader(log[n - 1].header)
  {
    ValidPrefix(verifies, log, n + 1);
    var at := log[..n + 1];
    ValidHead(verifies, at);
    assert at[..n] == log[..n] && at[n] == log[n];
  }

  // ---------- The node store ----------

  /** The Merkle node store: every tree ever written, found by its root. */
  type Nodes = map<Hash, Tree>

  ghost predicate Knows(nodes: Nodes, log: Log) {
    && (forall root | root in nodes :: root == OfTree(nodes[root]))
    && (forall n | 0 <= n < |log| :: log[n].header.root in nodes)
  }

  function LoadHistory(nodes: Nodes, root: Hash, key: string): Option<seq<Update>> {
    if root in nodes then Some(HistoryIn(nodes[root], key)) else None
  }

  lemma LoadsCommitted(verifies: Verifier, nodes: Nodes, log: Log, key: string)
    requires ValidLog(verifies, log) && Knows(nodes, log) && log != []
    ensures LoadHistory(nodes, log[|log| - 1].header.root, key) == Some(Committed(log, key))
    ensures nodes[log[|log| - 1].header.root] == TreeOf(log)
  {
    StateAtHeight(verifies, log, |log| - 1, key);
    assert log[..|log|] == log;
  }

  /** A key's history under the last header; empty before the first chunk. */
  method CurrentHistory(verifies: Verifier, nodes: Nodes, ghost log: Log, last: Option<Header>, key: string)
    returns (history: seq<Update>)
    requires ValidLog(verifies, log) && Knows(nodes, log)
    requires last == if log == [] then None else Some(log[|log| - 1].header)
    ensures history == HistoryIn(TreeOf(log), key)
  {
    if last.Some? {
      LoadsCommitted(verifies, nodes, log, key);
      TreeIsCommitted(log, key);
      return LoadHistory(nodes, last.value.root, key).value;
    }
    return [];
  }

  /** The check over all keys of a chunk, one history at a time. `last` is None before the first chunk. */
  method CheckUpdates(verifies: Verifier, nodes: Nodes, ghost log: Log, last: Option<Header>, updates: Updates)
    returns (ok: bool)
    requires ValidLog(verifies, log) && Knows(nodes, log)
    requires last == if log == [] then None else Some(log[|log| - 1].header)
    ensures ok == Extends(verifies, TreeOf(log), updates)
  {
    var keys := updates.Keys;
    while keys != {}
      invariant keys <= updates.Keys
      invariant forall key | key in updates.Keys - keys ::
                  Verified(verifies, HistoryIn(TreeOf(log), key) + updates[key])
      decreases keys
    {
      var key :| key in keys;
      var history := CurrentHistory(verifies, nodes, log, last, key);
      var r := VerifyHistory(verifies, history + updates[key]);
      if r.Err? {
        return false;
      }
      keys := keys - {key};
    }
    return true;
  }

  method CurrentTree(verifies: Verifier, nodes: Nodes, ghost log: Log, last: Option<Header>) returns (tree: Tree)
    requires ValidLog(verifies, log) && Knows(nodes, log)
    requires last == if log == [] then None else Some(log[|log| - 1].header)
    ensures tree == TreeOf(log)
  {
    if last.Some? {
      LoadsCommitted(verifies, nodes, log, "");
      return nodes[last.value.root];
    }
    return map[];
  }

  lemma NoUpdates(tree: Tree)
    ensures ApplyUpdates(tree, map[]) == tree
  {
  }

  /** The tree of the next chunk, rebuilt key by key, and the node store that then holds it. */
  method WriteTree(verifies: Verifier, nodes: Nodes, ghost log: Log, last: Option<Header>, updates: Updates)
    returns (root: Hash, nodes': Nodes)
    requires ValidLog(verifies, log) && Knows(nodes, log)
    requires last == if log == [] then None else Some(log[|log| - 1].header)
    ensures root == OfTree(ApplyUpdates(TreeOf(log), updates))
    ensures Knows(nodes', log) && root in nodes'
  {
    var tree := CurrentTree(verifies, nodes, log, last);
    NoUpdates(tree);
    var keys := updates.Keys;
    ghost var part: Updates := map[];
    ghost var before := tree;
    while keys != {}
      invariant keys <= updates.Keys && part.Keys == updates.Keys - keys
      invariant forall key | key in part :: part[key] == updates[key]
      invariant tree == ApplyUpdates(before, part)
      decreases keys
    {
      var key :| key in keys;
      var history := CurrentHistory(verifies, nodes, log, last, key);
      WithOneMore(before, part, key, updates[key]);
      assert history == HistoryIn(before, key);
      tree := tree[key := history + updates[key]];
      part := part[key := updates[key]];
      keys := keys - {key};
    }
    assert part == updates;
    KnowsMore(nodes, log, tree);
    root := OfTree(tree);
    nodes' := nodes[root := tree];
  }

  lemma KnowsMore(nodes: Nodes, log: Log, tree: Tree)
    requires Knows(nodes, log)
    ensures Knows(nodes[OfTree(tree) := tree], log)
  {
  }

  lemma KnowsAppended(verifies: Verifier, nodes: Nodes, log: Log, chunk: Chunk)
    requires ValidLog(verifies, log) && Knows(nodes, log)
    requires ValidNext(verifies, log, chunk) && chunk.header.root in nodes
    ensures ValidLog(verifies, log + [chunk]) && Knows(nodes, log + [chunk])
  {
    ValidAppend(verifies, log, chunk);
  }

  lemma WithOneMore(tree: Tree, part: Updates, key: string, list: seq<Update>)
    requires key !in part
    ensures ApplyUpdates(tree, part[key := list]) == ApplyUpdates(tree, part)[key := HistoryIn(tree, key) + list]
  {
    var more := part[key := list];
    assert ApplyUpdates(tree, more).Keys == ApplyUpdates(tree, part).Keys + {key};
  }
}
