/** Mirrors replay the chunks of an upstream directory they do not trust. */
module DirectoryMirror {
  import opened Common
  import opened DirectoryHistory
  import opened DirectoryLog

  /** The signed statement of the log's height and head hash; the signature itself is checked elsewhere. */
  datatype Anchor = Anchor(height: nat, hash: Hash)

  function AnchorOf(log: Log): Anchor
    requires log != []
  {
    Anchor(|log| - 1, HeadHash(log))
  }

  /** Chunks are fetched and replayed one height at a time; the first bad one stops the round. */
  function Replay(verifies: Verifier, log: Log, fetch: nat -> Option<Chunk>, height: nat): (Log, bool)
    decreases height + 1 - |log|
  {
    if |log| > height then (log, true)
    else match fetch(|log|)
      case None => (log, false)
      case Some(chunk) =>
        if ValidNext(verifies, log, chunk) then Replay(verifies, log + [chunk], fetch, height) else (log, false)
  }

  class Mirror {
    const verifies: Verifier
    var log: Log
    var nodes: Nodes
    var anchor: Option<Anchor>

    ghost predicate Valid() reads this {
      ValidLog(verifies, log) && Knows(nodes, log)
    }

    constructor (verifies: Verifier)
      ensures Valid() && this.verifies == verifies && log == [] && anchor == None
    {
      this.verifies := verifies;
      log, nodes, anchor := [], map[], None;
    }

    method ApplyChunk(height: nat, chunk: Chunk) returns (ok: bool)
      requires Valid()
      modifies this`log, this`nodes
      ensures Valid()
      ensures ok == (height == |old(log)| && ValidNext(verifies, old(log), chunk))
      ensures log == if ok then old(log) + [chunk] else old(log)
    {
      var last := if log == [] then None else Some(log[|log| - 1].header);
      var expectedPrev := if last.Some? then OfHeader(last.value) else Zero;
      if height != |log| || chunk.header.prev != expectedPrev {
        return false;
      }
      var extends' := CheckUpdates(verifies, nodes, log, last, chunk.updates);
      if !extends' {
        return false;
      }
      var root, nodes' := WriteTree(verifies, nodes, log, last, chunk.updates);
      nodes := nodes';
      if root != chunk.header.root {
        return false;
      }
      KnowsAppended(verifies, nodes, log, chunk);
      log := log + [chunk];
      return true;
    }

    /** One round against an upstream answering `fetch`. The anchor is adopted only when the local head matches it. */
    method SyncOnce(newAnchor: Anchor, fetch: nat -> Option<Chunk>) returns (ok: bool)
      requires Valid()
      modifies this`log, this`nodes, this`anchor
      ensures Valid()
      ensures log == Replay(verifies, old(log), fetch, newAnchor.height).0
      ensures ok == (Replay(verifies, old(log), fetch, newAnchor.height).1
                     && (|old(log)| == newAnchor.height + 1 ==> HeadHash(log) == newAnchor.hash))
      ensures anchor == if ok && |log| == newAnchor.height + 1 && HeadHash(log) == newAnchor.hash
                then Some(newAnchor) else old(anchor)
    {
      if |log| > newAnchor.height + 1 {
        return true;
      }
      if |log| == newAnchor.height + 1 {
        if HeadHash(log) != newAnchor.hash {
          return false;
        }
        anchor := Some(newAnchor);
        return true;
      }
      var next := |log|;
      while next <= newAnchor.height
        invariant Valid() && next == |log| <= newAnchor.height + 1 && anchor == old(anchor)
        invariant Replay(verifies, log, fetch, newAnchor.height) == Replay(verifies, old(log), fetch, newAnchor.height)
      {
        var chunk := fetch(next);
        if chunk.None? {
          return false;
        }
        var applied := ApplyChunk(next, chunk.value);
        if !applied {
          return false;
        }
        next := next + 1;
      }
      if HeadHash(log) == newAnchor.hash {
        anchor := Some(newAnchor);
      }
      return true;
    }
  }

  /** Whatever it is fed, a mirror stores only linked headers and verified histories, and never rewrites any. */
  lemma {:induction false} ReplayKeepsValid(verifies: Verifier, log: Log, fetch: nat -> Option<Chunk>, height: nat)
    requires ValidLog(verifies, log)
    ensures var r := Replay(verifies, log, fetch, height).0;
            ValidLog(verifies, r) && log <= r && |r| <= if |log| > height then |log| else height + 1
    decreases height + 1 - |log|
  {
    if |log| <= height && fetch(|log|).Some? && ValidNext(verifies, log, fetch(|log|).value) {
      ValidAppend(verifies, log, fetch(|log|).value);
      ReplayKeepsValid(verifies, log + [fetch(|log|).value], fetch, height);
    }
  }

  /** `fetch` answers with the chunks of `upstream` up to `height`. */
  ghost predicate Serves(upstream: Log, fetch: nat -> Option<Chunk>, height: nat) {
    height < |upstream| && forall i: nat | i <= height :: fetch(i) == Some(upstream[i])
  }

  lemma ServedIsNext(verifies: Verifier, upstream: Log, log: Log)
    requires ValidLog(verifies, upstream) && log <= upstream && |log| < |upstream|
    ensures ValidNext(verifies, log, upstream[|log|]) && log + [upstream[|log|]] == upstream[..|log| + 1]
  {
    var n := |log|;
    var longer := upstream[..n + 1];
    ValidPrefix(verifies, upstream, n + 1);
    assert longer[..n] == log && longer[n] == upstream[n];
    ValidHead(verifies, longer);
    assert log + [upstream[n]] == longer;
  }

  /** Fed by a valid upstream, a mirror that agrees with it never rejects a chunk and ends up equal to it. */
  lemma {:induction false} ReplayFollows(verifies: Verifier, upstream: Log, log: Log, fetch: nat -> Option<Chunk>,
                                         height: nat)
    requires ValidLog(verifies, upstream) && Serves(upstream, fetch, height) && log <= upstream
    ensures Replay(verifies, log, fetch, height) == (if |log| > height then log else upstream[..height + 1], true)
    decreases height + 1 - |log|
  {
    if |log| <= height {
      ServedIsNext(verifies, upstream, log);
      ReplayFollows(verifies, upstream, log + [upstream[|log|]], fetch, height);
    }
  }

  /** A round succeeds exactly if it gets past the anchor's height; else it stopped at a chunk that is missing or does
      not follow. */
  lemma {:induction false} ReplayStopsIff(verifies: Verifier, log: Log, fetch: nat -> Option<Chunk>, height: nat)
    ensures var (r, ok) := Replay(verifies, log, fetch, height);
            && (ok <==> |r| > height)
            && (!ok ==> fetch(|r|).None? || !ValidNext(verifies, r, fetch(|r|).value))
    decreases height + 1 - |log|
  {
    if |log| <= height && fetch(|log|).Some? && ValidNext(verifies, log, fetch(|log|).value) {
      ReplayStopsIff(verifies, log + [fetch(|log|).value], fetch, height);
    }
  }

  /** Each answer of `fetch` is missing or the upstream's own chunk at that height. */
  ghost predicate ServesIfAtAll(upstream: Log, fetch: nat -> Option<Chunk>) {
    forall i: nat | fetch(i).Some? :: i < |upstream| && fetch(i).value == upstream[i]
  }

  /** Over an unreliable line a mirror may fall behind a valid upstream but never apart from it. */
  lemma {:induction false} ReplayStaysBehind(verifies: Verifier, upstream: Log, log: Log,
                                             fetch: nat -> Option<Chunk>, height: nat)
    requires ValidLog(verifies, upstream) && ServesIfAtAll(upstream, fetch) && log <= upstream
    ensures log <= Replay(verifies, log, fetch, height).0 <= upstream
    decreases height + 1 - |log|
  {
    if |log| <= height && fetch(|log|).Some? {
      ServedIsNext(verifies, upstream, log);
      var longer := log + [upstream[|log|]];
      ReplayStaysBehind(verifies, upstream, longer, fetch, height);
      assert log == longer[..|log|];
    }
  }

  // ---------- What a head hash pins down ----------

  /** Valid logs with the same head hash have the same headers. */
  lemma {:induction false} HeadHashFixesLog(verifies: Verifier, a: Log, b: Log)
    requires ValidLog(verifies, a) && ValidLog(verifies, b) && HeadHash(a) == HeadHash(b)
    ensures |a| == |b|
    ensures forall n | 0 <= n < |a| :: a[n].header == b[n].header
    decreases |a|
  {
    if a != [] {
      HeadHashFixesHead(verifies, a, b);
      HeadHashFixesLog(verifies, a[..|a| - 1], b[..|b| - 1]);
    }
  }

  /** Hence the same tree at every height. */
  lemma HeadHashFixesTrees(verifies: Verifier, a: Log, b: Log, n: nat)
    requires ValidLog(verifies, a) && ValidLog(verifies, b) && HeadHash(a) == HeadHash(b) && n <= |a|
    ensures |a| == |b| && TreeOf(a[..n]) == TreeOf(b[..n])
  {
    HeadHashFixesLog(verifies, a, b);
    if n > 0 {
      RootFixesTree(verifies, a, b, n - 1);
    }
  }

  lemma RootFixesTree(verifies: Verifier, a: Log, b: Log, n: nat)
    requires ValidLog(verifies, a) && ValidLog(verifies, b) && n < |a| && n < |b| && a[n].header == b[n].header
    ensures TreeOf(a[..n + 1]) == TreeOf(b[..n + 1])
  {
    RootAtHeight(verifies, a, n);
    RootAtHeight(verifies, b, n);
  }

  lemma RootAtHeight(verifies: Verifier, log: Log, n: nat)
    requires ValidLog(verifies, log) && n < |log|
    ensures log[n].header.root == OfTree(TreeOf(log[..n + 1]))
  {
    HeaderAtHeight(verifies, log, n);
  }

  lemma HeadHashFixesHead(verifies: Verifier, a: Log, b: Log)
    requires ValidLog(verifies, a) && ValidLog(verifies, b) && HeadHash(a) == HeadHash(b) && a != []
    ensures b != [] && a[|a| - 1].header == b[|b| - 1].header
    ensures ValidLog(verifies, a[..|a| - 1]) && ValidLog(verifies, b[..|b| - 1])
    ensures HeadHash(a[..|a| - 1]) == HeadHash(b[..|b| - 1])
  {
    ValidHead(verifies, a);
    ValidHead(verifies, b);
  }

  /** A mirror whose head matches an upstream's anchor serves that upstream's history for every key. */
  lemma MatchedAnchorMeansSameHistory(verifies: Verifier, mirror: Log, upstream: Log, n: nat, key: string)
    requires ValidLog(verifies, mirror) && ValidLog(verifies, upstream) && upstream != []
    requires HeadHash(mirror) == AnchorOf(upstream).hash && n <= |mirror|
    ensures |mirror| == AnchorOf(upstream).height + 1 && Committed(mirror[..n], key) == Committed(upstream[..n], key)
  {
    HeadHashFixesTrees(verifies, mirror, upstream, n);
    TreeIsCommitted(mirror[..n], key);
    TreeIsCommitted(upstream[..n], key);
  }
}
