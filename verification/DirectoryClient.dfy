/** Directory clients: header synchronisation against a signed anchor, and the check of a response. */
module DirectoryClient {
  import opened Common
  import opened DirectoryHistory
  import opened DirectoryLog
  import opened DirectoryMirror

  const BATCH_LIMIT: nat := 1000

  type Headers = seq<Header>
  type Fetch = (nat, nat) -> Option<Headers>

  function ChainHash(headers: Headers): Hash {
    if headers == [] then Zero else OfHeader(headers[|headers| - 1])
  }

  ghost predicate Chained(headers: Headers) {
    && (headers != [] ==> headers[0].prev == Zero)
    && forall i, j | 0 <= i < j < |headers| && j == i + 1 :: headers[j].prev == OfHeader(headers[i])
  }

  /** Each header of a batch links to the one before, the first to `prev`. */
  predicate LinksFrom(prev: Hash, batch: Headers)
    decreases |batch|
  {
    batch == [] || (batch[0].prev == prev && LinksFrom(OfHeader(batch[0]), batch[1..]))
  }

  lemma {:induction false} LinksFromIff(headers: Headers, batch: Headers)
    requires Chained(headers)
    ensures LinksFrom(ChainHash(headers), batch) <==> Chained(headers + batch)
    decreases |batch|
  {
    if batch == [] {
      assert headers + batch == headers;
    } else {
      var more := headers + [batch[0]];
      assert headers + batch == more + batch[1..];
      if batch[0].prev == ChainHash(headers) {
        LinksFromIff(more, batch[1..]);
      } else {
        assert (headers + batch)[|headers|] == batch[0];
        assert headers != [] ==> (headers + batch)[|headers| - 1] == headers[|headers| - 1];
      }
    }
  }

  function BatchEnd(next: nat, height: nat): (end: nat)
    requires next <= height
    ensures next <= end <= height
  {
    if next + BATCH_LIMIT - 1 < height then next + BATCH_LIMIT - 1 else height
  }

  /** Every batch but the last asks for 1000 headers, the last for what is left up to the anchor's height. */
  lemma BatchesAre(next: nat, height: nat)
    requires next <= height
    ensures BatchEnd(next, height) - next + 1 == if height - next + 1 >= 1000 then 1000 else height - next + 1
  {
  }

  /** The next batch, if it is complete and links to what is stored. */
  function NextBatch(stored: Headers, fetch: Fetch, height: nat): (r: Option<Headers>)
    requires |stored| <= height
    ensures r.Some? ==> |r.value| == BatchEnd(|stored|, height) - |stored| + 1
  {
    var end := BatchEnd(|stored|, height);
    var answer := fetch(|stored|, end);
    if answer.Some? && |answer.value| == end - |stored| + 1 && LinksFrom(ChainHash(stored), answer.value) then answer
    else None
  }

  /** The synchronisation from a stored chain: batches up to the anchor's height, each stored before the next is
      fetched, and the anchor's hash compared at the end. The Boolean is success. */
  function Sync(stored: Headers, fetch: Fetch, anchor: Anchor): (Headers, bool)
    decreases anchor.height + 1 - |stored|
  {
    if |stored| > anchor.height then (stored, ChainHash(stored) == anchor.hash)
    else match NextBatch(stored, fetch, anchor.height)
      case None => (stored, false)
      case Some(batch) => Sync(stored + batch, fetch, anchor)
  }

  /** A row of the header table; the height is the position. */
  datatype Row = Row(header: Header, hash: Hash)

  function HeadersOf(rows: seq<Row>): Headers { Map((row: Row) => row.header, rows) }

  ghost predicate Hashed(rows: seq<Row>) {
    forall row | row in rows :: row.hash == OfHeader(row.header)
  }

  lemma BatchStored(rows: seq<Row>, staged: seq<Row>)
    requires Chained(HeadersOf(rows)) && Hashed(rows) && Hashed(staged) && staged != []
    requires LinksFrom(ChainHash(HeadersOf(rows)), HeadersOf(staged))
    ensures HeadersOf(rows + staged) == HeadersOf(rows) + HeadersOf(staged)
    ensures Chained(HeadersOf(rows + staged)) && Hashed(rows + staged)
    ensures staged[|staged| - 1].hash == ChainHash(HeadersOf(rows + staged))
  {
    LinksFromIff(HeadersOf(rows), HeadersOf(staged));
    assert HeadersOf(rows + staged) == HeadersOf(rows) + HeadersOf(staged);
  }

  class HeaderStore {
    var rows: seq<Row>

    /** Stored headers form a hash chain from the zero hash, with their hashes beside them. */
    ghost predicate Valid() reads this {
      Chained(HeadersOf(rows)) && Hashed(rows)
    }

    constructor ()
      ensures Valid() && rows == []
    {
      rows := [];
    }

    method SyncHeaders(fetch: Fetch, anchor: Anchor) returns (ok: bool)
      requires Valid()
      modifies this
      ensures Valid()
      ensures (HeadersOf(rows), ok) == Sync(HeadersOf(old(rows)), fetch, anchor)
    {
      var prev := if rows == [] then Zero else rows[|rows| - 1].hash;
      var next := |rows|;
      while next <= anchor.height
        invariant Valid() && next == |rows| && prev == ChainHash(HeadersOf(rows))
        invariant Sync(HeadersOf(rows), fetch, anchor) == Sync(HeadersOf(old(rows)), fetch, anchor)
        decreases anchor.height + 1 - next
      {
        var end := BatchEnd(next, anchor.height);
        var answer := fetch(next, end);
        if answer.None? || |answer.value| != end - next + 1 {
          return false;
        }
        var linked, staged := StageBatch(prev, answer.value);
        if !linked {
          return false;
        }
        assert NextBatch(HeadersOf(rows), fetch, anchor.height) == answer;
        BatchStored(rows, staged);
        rows := rows + staged;
        prev := staged[|staged| - 1].hash;
        next := end + 1;
      }
      return prev == anchor.hash;
    }

    /** The scan over one batch, before anything of it is stored. */
    static method StageBatch(prev: Hash, batch: Headers) returns (linked: bool, staged: seq<Row>)
      ensures linked == LinksFrom(prev, batch)
      ensures linked ==> HeadersOf(staged) == batch && Hashed(staged)
    {
      staged := [];
      var expected := prev;
      for i := 0 to |batch|
        invariant HeadersOf(staged) == batch[..i] && Hashed(staged)
        invariant LinksFrom(prev, batch) == LinksFrom(expected, batch[i..])
      {
        if batch[i].prev != expected {
          return false, staged;
        }
        assert batch[i..][1..] == batch[i + 1..];
        staged := staged + [Row(batch[i], OfHeader(batch[i]))];
        expected := OfHeader(batch[i]);
      }
      return true, staged;
    }
  }

  // ---------- What synchronisation guarantees ----------

  /** Stored headers are chained after every synchronisation, failed ones included, and never rewritten. */
  lemma {:induction false} SyncKeepsChain(stored: Headers, fetch: Fetch, anchor: Anchor)
    requires Chained(stored)
    ensures Chained(Sync(stored, fetch, anchor).0) && stored <= Sync(stored, fetch, anchor).0
    ensures Sync(stored, fetch, anchor).1 ==> ChainHash(Sync(stored, fetch, anchor).0) == anchor.hash
    decreases anchor.height + 1 - |stored|
  {
    if |stored| <= anchor.height {
      var batch := NextBatch(stored, fetch, anchor.height);
      if batch.Some? {
        LinksFromIff(stored, batch.value);
        SyncKeepsChain(stored + batch.value, fetch, anchor);
      }
    }
  }

  lemma ChainedPrefix(chain: Headers, n: nat)
    requires Chained(chain) && n <= |chain|
    ensures Chained(chain[..n])
  {
  }

  /** A hash names one chain. */
  lemma {:induction false} ChainHashFixesChain(a: Headers, b: Headers)
    requires Chained(a) && Chained(b) && ChainHash(a) == ChainHash(b)
    ensures a == b
    decreases |a|
  {
    if a != [] {
      var n, m := |a| - 1, |b| - 1;
      assert a[n].prev == ChainHash(a[..n]) && b[m].prev == ChainHash(b[..m]) by {
        assert n > 0 ==> a[n].prev == OfHeader(a[n - 1]);
        assert m > 0 ==> b[m].prev == OfHeader(b[m - 1]);
      }
      ChainedPrefix(a, n);
      ChainedPrefix(b, m);
      ChainHashFixesChain(a[..n], b[..m]);
      assert a == a[..n] + [a[n]] && b == b[..m] + [b[m]];
    }
  }

  /** After a successful synchronisation any two clients with the same anchor hold the same headers. */
  lemma SameAnchorSameHeaders(a: Headers, b: Headers, fetchA: Fetch, fetchB: Fetch, anchor: Anchor)
    requires Chained(a) && Chained(b)
    requires Sync(a, fetchA, anchor).1 && Sync(b, fetchB, anchor).1
    ensures Sync(a, fetchA, anchor).0 == Sync(b, fetchB, anchor).0
  {
    SyncKeepsChain(a, fetchA, anchor);
    SyncKeepsChain(b, fetchB, anchor);
    ChainHashFixesChain(Sync(a, fetchA, anchor).0, Sync(b, fetchB, anchor).0);
  }

  /** From height `next` on, `fetch` answers each batch request with the headers of `chain`. */
  ghost predicate Delivers(fetch: Fetch, chain: Headers, next: nat)
    decreases |chain| - next
  {
    next >= |chain| ||
    var end := BatchEnd(next, |chain| - 1);
    fetch(next, end) == Some(chain[next..end + 1]) && Delivers(fetch, chain, end + 1)
  }

  lemma PrefixOfBoth(stored: Headers, batch: Headers, chain: Headers)
    requires |stored| + |batch| <= |chain|
    ensures stored + batch <= chain <==> stored <= chain && batch == chain[|stored|..|stored| + |batch|]
  {
    if stored + batch <= chain {
      assert chain[..|stored| + |batch|] == stored + batch;
      assert chain[|stored|..|stored| + |batch|] == chain[..|stored| + |batch|][|stored|..] == batch;
      assert chain[..|stored|] == chain[..|stored| + |batch|][..|stored|] == stored;
    }
  }

  lemma SliceLinks(stored: Headers, chain: Headers, n: nat)
    requires Chained(chain) && stored <= chain && |stored| <= n <= |chain|
    ensures LinksFrom(ChainHash(stored), chain[|stored|..n])
  {
    ChainedPrefix(chain, |stored|);
    ChainedPrefix(chain, n);
    assert stored == chain[..|stored|];
    assert stored + chain[|stored|..n] == chain[..n];
    LinksFromIff(stored, chain[|stored|..n]);
  }

  lemma DeliveredIsNext(stored: Headers, fetch: Fetch, chain: Headers)
    requires Chained(chain) && |stored| < |chain| && stored <= chain && Delivers(fetch, chain, |stored|)
    ensures NextBatch(stored, fetch, |chain| - 1) == Some(chain[|stored|..BatchEnd(|stored|, |chain| - 1) + 1])
  {
    SliceLinks(stored, chain, BatchEnd(|stored|, |chain| - 1) + 1);
  }

  /** Exactly when synchronisation against the anchor of a chain succeeds: what is stored is a prefix of that
      chain, no longer than it, and the missing batches are delivered. A client that is ahead of the anchor, or
      that stored a foreign header in an earlier failed attempt, cannot succeed. */
  lemma {:induction false} SyncSucceedsIff(stored: Headers, fetch: Fetch, chain: Headers)
    requires Chained(stored) && Chained(chain) && chain != []
    ensures Sync(stored, fetch, Anchor(|chain| - 1, ChainHash(chain))).1
            <==> stored <= chain && Delivers(fetch, chain, |stored|)
    decreases |chain| - |stored|
  {
    var anchor := Anchor(|chain| - 1, ChainHash(chain));
    if |stored| >= |chain| {
      if ChainHash(stored) == anchor.hash {
        ChainHashFixesChain(stored, chain);
      }
    } else {
      var batch := NextBatch(stored, fetch, anchor.height);
      if batch.None? {
        if stored <= chain && Delivers(fetch, chain, |stored|) {
          DeliveredIsNext(stored, fetch, chain);
        }
      } else {
        LinksFromIff(stored, batch.value);
        SyncSucceedsIff(stored + batch.value, fetch, chain);
        PrefixOfBoth(stored, batch.value, chain);
      }
    }
  }

  // ---------- Responses ----------

  /** A Merkle branch, ideally: it shows the content of one tree. `Malformed` does not decompress. */
  datatype Proof = Branch(tree: Tree) | Malformed

  datatype Response = Response(history: seq<Update>, height: nat, proof: Proof)

  /** `value` is None for absence. */
  predicate ProofVerifies(proof: Proof, root: Hash, key: string, value: Option<seq<Update>>) {
    && proof.Branch? && root == OfTree(proof.tree)
    && value == if key in proof.tree then Some(proof.tree[key]) else None
  }

  /** The check of a response against stored headers; an empty history claims absence. */
  predicate VerifyResponse(headers: Headers, key: string, anchor: Anchor, response: Response) {
    && response.height <= anchor.height
    && response.height < |headers|
    && ProofVerifies(response.proof, headers[response.height].root, key,
                     if response.history == [] then None else Some(response.history))
  }

  function LogHeaders(log: Log): Headers { Map((chunk: Chunk) => chunk.header, log) }

  lemma LogHeadersChained(verifies: Verifier, log: Log)
    requires ValidLog(verifies, log)
    ensures Chained(LogHeaders(log)) && ChainHash(LogHeaders(log)) == HeadHash(log)
  {
    forall i | 0 <= i < |log| ensures log[i].header.prev == if i == 0 then Zero else OfHeader(log[i - 1].header) {
      StateAtHeight(verifies, log, i, "");
    }
  }

  /** A client behind the directory, or level with it, ends with its headers once the missing ones are delivered. */
  lemma HeadersDelivered(verifies: Verifier, log: Log, stored: Headers, fetch: Fetch)
    requires ValidLog(verifies, log) && log != []
    requires stored <= LogHeaders(log) && Delivers(fetch, LogHeaders(log), |stored|)
    ensures Chained(stored) && Sync(stored, fetch, AnchorOf(log)) == (LogHeaders(log), true)
  {
    var headers := LogHeaders(log);
    LogHeadersChained(verifies, log);
    ChainedPrefix(headers, |stored|);
    assert stored == headers[..|stored|];
    SyncSucceedsIff(stored, fetch, headers);
    SyncKeepsChain(stored, fetch, AnchorOf(log));
    ChainHashFixesChain(Sync(stored, fetch, AnchorOf(log)).0, headers);
  }

  /** Over any transport: once a client has synchronised against an anchor of the directory, a response it
      accepts carries the directory's own history for that key at that height, and that history verifies. */
  lemma AcceptedResponseIsDirectorys(verifies: Verifier, log: Log, stored: Headers, fetch: Fetch, key: string,
                                     response: Response)
    requires ValidLog(verifies, log) && log != [] && Chained(stored)
    requires Sync(stored, fetch, AnchorOf(log)).1
    requires VerifyResponse(Sync(stored, fetch, AnchorOf(log)).0, key, AnchorOf(log), response)
    ensures response.height < |log|
    ensures response.history == Committed(log[..response.height + 1], key)
    ensures Verified(verifies, response.history)
  {
    var headers := Sync(stored, fetch, AnchorOf(log)).0;
    SyncKeepsChain(stored, fetch, AnchorOf(log));
    LogHeadersChained(verifies, log);
    ChainHashFixesChain(headers, LogHeaders(log));
    StateAtHeight(verifies, log, response.height, key);
  }

  /** The answer the directory gives for a key at its head. */
  function ItemResponse(log: Log, key: string): Response
    requires log != []
  {
    Response(HistoryIn(TreeOf(log), key), |log| - 1, Branch(TreeOf(log)))
  }

  /** The directory's own answer is accepted unless the key is stored with an empty history, which only a chunk
      with an empty update list can do. */
  lemma HonestResponseAccepted(verifies: Verifier, log: Log, key: string)
    requires ValidLog(verifies, log) && log != []
    ensures VerifyResponse(LogHeaders(log), key, AnchorOf(log), ItemResponse(log, key))
            <==> !(key in TreeOf(log) && TreeOf(log)[key] == [])
  {
    StateAtHeight(verifies, log, |log| - 1, key);
    assert log[..|log|] == log;
  }

  /** The history of a key at an earlier height, with its proof there. */
  function ResponseAt(log: Log, height: nat, key: string): Response
    requires height < |log|
  {
    Response(Committed(log[..height + 1], key), height, Branch(TreeOf(log[..height + 1])))
  }

  /** A true response for any height up to the anchor's is accepted, unless the key is stored there with an empty
      history; one for a height beyond the anchor is not, whatever it holds. */
  lemma TrueResponseAccepted(verifies: Verifier, log: Log, anchor: Anchor, height: nat, key: string)
    requires ValidLog(verifies, log) && height < |log|
    ensures VerifyResponse(LogHeaders(log), key, anchor, ResponseAt(log, height, key))
            <==> height <= anchor.height && !(key in TreeOf(log[..height + 1]) && TreeOf(log[..height + 1])[key] == [])
  {
    StateAtHeight(verifies, log, height, key);
  }
}
