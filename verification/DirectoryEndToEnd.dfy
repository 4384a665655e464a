/** The directory as its users see it: from accepted inserts to what a client reads. */
module DirectoryEndToEnd {
  import opened Common
  import opened DirectoryHistory
  import opened DirectoryLog
  import S = DirectoryServer
  import M = DirectoryMirror
  import C = DirectoryClient

  /** Inserts and commits run as atomic steps, then a commit. A client that has synchronised against the resulting
      anchor, over any transport, reads for every key exactly the accepted updates, in acceptance order. */
  lemma ClientReadsAcceptedUpdates(verifies: Verifier, events: seq<S.Atomic>, time: nat,
                                   stored: C.Headers, fetch: C.Fetch, key: string, response: C.Response)
    requires var s := S.AtomicStep(verifies, S.RunAtomic(verifies, S.INITIAL, events), S.Commit(time));
             && s.log != [] && C.Chained(stored)
             && C.Sync(stored, fetch, M.AnchorOf(s.log)).1
             && C.VerifyResponse(C.Sync(stored, fetch, M.AnchorOf(s.log)).0, key, M.AnchorOf(s.log), response)
             && response.height == M.AnchorOf(s.log).height
    ensures response.history == HistoryIn(S.RunAtomic(verifies, S.INITIAL, events).accepted, key)
    ensures Verified(verifies, response.history)
  {
    var before := S.RunAtomic(verifies, S.INITIAL, events);
    S.InitialAtRest(verifies);
    S.AtomicRunAtRest(verifies, S.INITIAL, events);
    S.AtomicCommit(verifies, before, time);
    var s := S.AtomicStep(verifies, before, S.Commit(time));
    C.AcceptedResponseIsDirectorys(verifies, s.log, stored, fetch, key, response);
    assert s.log[..|s.log|] == s.log;
  }

  /** A mirror that has followed any interleaved run of a directory from the start has its log at the anchor's
      height. */
  lemma MirrorFollowsRun(verifies: Verifier, events: seq<S.Event>, fetch: nat -> Option<Chunk>, height: nat)
    requires M.Serves(S.Run(verifies, S.INITIAL, events).log, fetch, height)
    ensures M.Replay(verifies, [], fetch, height) == (S.Run(verifies, S.INITIAL, events).log[..height + 1], true)
  {
    S.RunKeepsSound(verifies, S.INITIAL, events);
    M.ReplayFollows(verifies, S.Run(verifies, S.INITIAL, events).log, [], fetch, height);
  }

  /** What the directory answers at the head of any interleaved run is accepted by every synchronised client. */
  lemma DirectoryAnswersAccepted(verifies: Verifier, events: seq<S.Event>, key: string)
    requires S.Run(verifies, S.INITIAL, events).log != []
    ensures var log := S.Run(verifies, S.INITIAL, events).log;
            C.VerifyResponse(C.LogHeaders(log), key, M.AnchorOf(log), C.ItemResponse(log, key))
  {
    var log := S.Run(verifies, S.INITIAL, events).log;
    S.RunKeepsSound(verifies, S.INITIAL, events);
    C.HonestResponseAccepted(verifies, log, key);
    if key in TreeOf(log) {
      S.StoresNoEmptyHistory(verifies, events, key);
    }
  }

  /** A client whose stored headers are a prefix of the directory's, and to whom the missing ones are delivered,
      does synchronise, accepts the directory's answer and reads the accepted updates from it. */
  lemma ClientCanRead(verifies: Verifier, events: seq<S.Atomic>, time: nat, stored: C.Headers, fetch: C.Fetch,
                      key: string)
    requires var log := S.AtomicStep(verifies, S.RunAtomic(verifies, S.INITIAL, events), S.Commit(time)).log;
             stored <= C.LogHeaders(log) && C.Delivers(fetch, C.LogHeaders(log), |stored|)
    ensures var before := S.RunAtomic(verifies, S.INITIAL, events);
            var log := S.AtomicStep(verifies, before, S.Commit(time)).log;
            && log != [] && C.Chained(stored)
            && C.Sync(stored, fetch, M.AnchorOf(log)) == (C.LogHeaders(log), true)
            && C.VerifyResponse(C.LogHeaders(log), key, M.AnchorOf(log), C.ItemResponse(log, key))
            && C.ItemResponse(log, key).history == HistoryIn(before.accepted, key)
  {
    var before := S.RunAtomic(verifies, S.INITIAL, events);
    var s := S.AtomicStep(verifies, before, S.Commit(time));
    CommittedAnswer(verifies, events, time, key);
    C.LogHeadersChained(verifies, s.log);
    C.HeadersDelivered(verifies, s.log, stored, fetch);
  }

  lemma CommittedAnswer(verifies: Verifier, events: seq<S.Atomic>, time: nat, key: string)
    ensures var before := S.RunAtomic(verifies, S.INITIAL, events);
            var log := S.AtomicStep(verifies, before, S.Commit(time)).log;
            && log != [] && ValidLog(verifies, log)
            && C.VerifyResponse(C.LogHeaders(log), key, M.AnchorOf(log), C.ItemResponse(log, key))
            && C.ItemResponse(log, key).history == HistoryIn(before.accepted, key)
  {
    var before := S.RunAtomic(verifies, S.INITIAL, events);
    var s := S.AtomicStep(verifies, before, S.Commit(time));
    S.InitialAtRest(verifies);
    S.AtomicRunAtRest(verifies, S.INITIAL, events);
    S.AtomicCommit(verifies, before, time);
    TreeIsCommitted(s.log, key);
    NoEmptyAfter(verifies, events, time);
    C.HonestResponseAccepted(verifies, s.log, key);
    if key in TreeOf(s.log) {
      S.TreeHasNoEmpty(s.log, key);
    }
  }

  lemma NoEmptyAfter(verifies: Verifier, events: seq<S.Atomic>, time: nat)
    ensures S.NoEmpty(S.AtomicStep(verifies, S.RunAtomic(verifies, S.INITIAL, events), S.Commit(time)))
  {
    var before := S.RunAtomic(verifies, S.INITIAL, events);
    S.AtomicRunKeepsNoEmpty(verifies, S.INITIAL, events);
    S.AtomicIsHalves(verifies, before, S.Commit(time));
    S.RunKeepsNoEmpty(verifies, before, S.Commit(time).Halves());
  }
}
