/** The directory server: updates pass from a staging area into committed chunks. */
module DirectoryServer {
  import opened Common
  import opened DirectoryHistory
  import opened DirectoryLog

  function Stage(staging: Updates, key: string, update: Update): Updates {
    staging[key := HistoryIn(staging, key) + [update]]
  }

  function NextChunk(log: Log, updates: Updates, time: nat): Chunk {
    Chunk(Header(HeadHash(log), OfTree(ApplyUpdates(TreeOf(log), updates)), time), updates)
  }

  function Publish(verifies: Verifier, log: Log, updates: Updates, time: nat): Log {
    if Extends(verifies, TreeOf(log), updates) then log + [NextChunk(log, updates, time)] else log
  }

  lemma PublishKeepsValid(verifies: Verifier, log: Log, updates: Updates, time: nat)
    requires ValidLog(verifies, log)
    ensures ValidLog(verifies, Publish(verifies, log, updates, time))
  {
    ValidAppend(verifies, log, NextChunk(log, updates, time));
  }

  datatype InsertResult = Accepted | RetryLater | UpdateRejected

  class Server {
    const verifies: Verifier
    var log: Log
    var nodes: Nodes
    var staging: Updates

    ghost predicate Valid() reads this {
      ValidLog(verifies, log) && Knows(nodes, log)
    }

    constructor (verifies: Verifier)
      ensures Valid() && this.verifies == verifies && log == [] && staging == map[]
    {
      this.verifies := verifies;
      log, nodes, staging := [], map[], map[];
    }

    /** The first half of an insert, before the staging lock: the committed history under the last header. */
    method LoadForInsert(key: string) returns (history: Option<seq<Update>>)
      requires Valid()
      ensures history == if log == [] then None else Some(Committed(log, key))
    {
      if log == [] {
        return None;
      }
      LoadsCommitted(verifies, nodes, log, key);
      return LoadHistory(nodes, log[|log| - 1].header.root, key);
    }

    /** The second half, under the staging lock, with whatever history was loaded before. */
    method StageUpdate(key: string, loaded: seq<Update>, update: Update) returns (ok: bool)
      requires Valid()
      modifies this`staging
      ensures ok == Verified(verifies, loaded + HistoryIn(old(staging), key) + [update])
      ensures staging == if ok then Stage(old(staging), key, update) else old(staging)
    {
      var history := loaded;
      if key in staging {
        history := history + staging[key];
      }
      assert history == loaded + HistoryIn(staging, key);
      var r := VerifyHistory(verifies, history + [update]);
      if r.Err? {
        return false;
      }
      staging := Stage(staging, key, update);
      return true;
    }

    method InsertUpdate(key: string, update: Update) returns (r: InsertResult)
      requires Valid()
      modifies this`staging
      ensures r == if log == [] then RetryLater
                   else if Verified(verifies, Committed(log, key) + HistoryIn(old(staging), key) + [update])
                   then Accepted
                   else UpdateRejected
      ensures staging == if r == Accepted then Stage(old(staging), key, update) else old(staging)
    {
      var history := LoadForInsert(key);
      if history.None? {
        return RetryLater;
      }
      var ok := StageUpdate(key, history.value, update);
      return if ok then Accepted else UpdateRejected;
    }

    method TakeStaging() returns (updates: Updates)
      modifies this`staging
      ensures updates == old(staging) && staging == map[]
    {
      updates := staging;
      staging := map[];
    }

    /** Verifies and commits what was taken; on failure everything taken is lost. */
    method PublishTaken(updates: Updates, time: nat) returns (ok: bool)
      requires Valid()
      modifies this`log, this`nodes
      ensures Valid()
      ensures log == Publish(verifies, old(log), updates, time)
      ensures ok == Extends(verifies, TreeOf(old(log)), updates)
    {
      var last := if log == [] then None else Some(log[|log| - 1].header);
      var prev := if last.Some? then OfHeader(last.value) else Zero;
      ok := CheckUpdates(verifies, nodes, log, last, updates);
      if !ok {
        return;
      }
      var root, nodes' := WriteTree(verifies, nodes, log, last, updates);
      nodes := nodes';
      var chunk := Chunk(Header(prev, root, time), updates);
      assert chunk == NextChunk(log, updates, time);
      KnowsAppended(verifies, nodes, log, chunk);
      log := log + [chunk];
    }

    method CommitChunk(time: nat) returns (ok: bool)
      requires Valid()
      modifies this`log, this`nodes, this`staging
      ensures Valid() && staging == map[]
      ensures log == Publish(verifies, old(log), old(staging), time)
      ensures ok == Extends(verifies, TreeOf(old(log)), old(staging))
    {
      var updates := TakeStaging();
      ok := PublishTaken(updates, time);
    }
  }

  // ---------- Runs with interleaved halves ----------

  /** An insert that has loaded its history and not yet reached the staging lock. */
  datatype InFlight = InFlight(key: string, update: Update, loaded: seq<Update>)

  /** The server between atomic sections. `taken` is a commit between its two halves; `accepted` records,
      key by key, every update an insert has reported as accepted. */
  datatype System = System(log: Log, staging: Updates, inserts: seq<InFlight>, taken: Option<Updates>,
                           accepted: Updates)
  {
    function Taken(): Updates { if taken.Some? then taken.value else map[] }

    /** A key's updates on their way: committed, taken, staged. */
    function Pipeline(key: string): seq<Update> {
      Committed(log, key) + HistoryIn(Taken(), key) + HistoryIn(staging, key)
    }
  }

  datatype Event =
    | BeginInsert(key: string, update: Update)
    | FinishInsert(i: nat)
    | TakeStaging
    | PublishTaken(time: nat)

  const INITIAL := System([], map[], [], None, map[])

  predicate Accepts(verifies: Verifier, s: System, i: nat)
    requires i < |s.inserts|
  {
    var insert := s.inserts[i];
    Verified(verifies, insert.loaded + HistoryIn(s.staging, insert.key) + [insert.update])
  }

  function Begin(s: System, key: string, update: Update): System {
    if s.log == [] then s else s.(inserts := s.inserts + [InFlight(key, update, Committed(s.log, key))])
  }

  function Finish(verifies: Verifier, s: System, i: nat): System {
    if i >= |s.inserts| then s else
      var insert := s.inserts[i];
      var rest := s.(inserts := s.inserts[..i] + s.inserts[i + 1..]);
      if !Accepts(verifies, s, i) then rest
      else rest.(staging := Stage(s.staging, insert.key, insert.update),
                     accepted := Stage(s.accepted, insert.key, insert.update))
  }

  function Take(s: System): System {
    if s.taken.Some? then s else s.(taken := Some(s.staging), staging := map[])
  }

  function PublishStep(verifies: Verifier, s: System, time: nat): System {
    if s.taken.None? then s else s.(log := Publish(verifies, s.log, s.taken.value, time), taken := None)
  }

  function Step(verifies: Verifier, s: System, e: Event): System {
    match e
    case BeginInsert(key, update) => Begin(s, key, update)
    case FinishInsert(i) => Finish(verifies, s, i)
    case TakeStaging => Take(s)
    case PublishTaken(time) => PublishStep(verifies, s, time)
  }

  function Run(verifies: Verifier, s: System, events: seq<Event>): System
    decreases events
  {
    if events == [] then s else Run(verifies, Step(verifies, s, events[0]), events[1..])
  }

  /** Loaded histories are prefixes of the committed ones. */
  ghost predicate LoadedPrefixes(log: Log, inserts: seq<InFlight>) {
    forall insert | insert in inserts :: insert.loaded <= Committed(log, insert.key)
  }

  ghost predicate Sound(verifies: Verifier, s: System) {
    ValidLog(verifies, s.log) && LoadedPrefixes(s.log, s.inserts)
  }

  lemma PublishStepKeepsSound(verifies: Verifier, s: System, time: nat)
    requires Sound(verifies, s)
    ensures Sound(verifies, PublishStep(verifies, s, time)) && s.log <= PublishStep(verifies, s, time).log
  {
    if s.taken.Some? {
      PublishKeepsValid(verifies, s.log, s.taken.value, time);
      PublishGrows(verifies, s.log, s.taken.value, time);
    }
  }

  lemma FinishKeepsSound(verifies: Verifier, s: System, i: nat)
    requires Sound(verifies, s)
    ensures Sound(verifies, Finish(verifies, s, i)) && Finish(verifies, s, i).log == s.log
  {
    if i < |s.inserts| {
      assert forall insert | insert in s.inserts[..i] + s.inserts[i + 1..] :: insert in s.inserts;
    }
  }

  lemma BeginKeepsSound(verifies: Verifier, s: System, key: string, update: Update)
    requires Sound(verifies, s)
    ensures Sound(verifies, Begin(s, key, update)) && Begin(s, key, update).log == s.log
  {
    LoadedOneMore(s.log, s.inserts, key, update);
  }

  lemma LoadedOneMore(log: Log, inserts: seq<InFlight>, key: string, update: Update)
    requires LoadedPrefixes(log, inserts)
    ensures LoadedPrefixes(log, inserts + [InFlight(key, update, Committed(log, key))])
  {
  }

  lemma StepKeepsSound(verifies: Verifier, s: System, e: Event)
    requires Sound(verifies, s)
    ensures Sound(verifies, Step(verifies, s, e)) && s.log <= Step(verifies, s, e).log
  {
    match e {
      case BeginInsert(key, update) => BeginKeepsSound(verifies, s, key, update);
      case FinishInsert(i) => FinishKeepsSound(verifies, s, i);
      case TakeStaging =>
      case PublishTaken(time) => PublishStepKeepsSound(verifies, s, time);
    }
  }

  lemma PublishGrows(verifies: Verifier, log: Log, updates: Updates, time: nat)
    ensures log <= Publish(verifies, log, updates, time)
    ensures forall key :: Committed(log, key) <= Committed(Publish(verifies, log, updates, time), key)
  {
    var log' := Publish(verifies, log, updates, time);
    forall key ensures Committed(log, key) <= Committed(log', key) {
      assert log'[..|log|] == log;
      CommittedGrows(log', |log|, key);
    }
  }

  /** However inserts and commits interleave, the log stays valid and only grows. */
  lemma {:induction false} RunKeepsSound(verifies: Verifier, s: System, events: seq<Event>)
    requires Sound(verifies, s)
    ensures Sound(verifies, Run(verifies, s, events)) && s.log <= Run(verifies, s, events).log
    decreases events
  {
    if events != [] {
      StepKeepsSound(verifies, s, events[0]);
      RunKeepsSound(verifies, Step(verifies, s, events[0]), events[1..]);
    }
  }

  /** At every height of every reachable log: the header chain, the tree, and verified histories that only grow. */
  lemma ReachableState(verifies: Verifier, events: seq<Event>, n: nat, key: string)
    requires n < |Run(verifies, INITIAL, events).log|
    ensures var log := Run(verifies, INITIAL, events).log;
            && log[n].header.prev == (if n == 0 then Zero else OfHeader(log[n - 1].header))
            && log[n].header.root == OfTree(TreeOf(log[..n + 1]))
            && HistoryIn(TreeOf(log[..n + 1]), key) == Committed(log[..n + 1], key)
            && Verified(verifies, Committed(log[..n + 1], key))
            && Committed(log[..n], key) <= Committed(log[..n + 1], key)
  {
    RunKeepsSound(verifies, INITIAL, events);
    StateAtHeight(verifies, Run(verifies, INITIAL, events).log, n, key);
  }

  // ---------- When commits succeed ----------

  /** Everything on its way can still be committed. */
  ghost predicate Committable(verifies: Verifier, s: System) {
    forall key :: Verified(verifies, s.Pipeline(key))
  }

  /** The insert's history is all that is committed or about to be: no chunk with this key came between. */
  predicate Fresh(s: System, i: nat)
    requires i < |s.inserts|
  {
    s.inserts[i].loaded == Committed(s.log, s.inserts[i].key) + HistoryIn(s.Taken(), s.inserts[i].key)
  }

  lemma VerifiedLinks(verifies: Verifier, a: seq<Update>, b: seq<Update>)
    requires Verified(verifies, a + b) && b != []
    ensures b[0].prev == LastHash(a)
  {
    VerifiedIff(verifies, a + b);
    assert (a + b)[|a|] == b[0] && (a + b)[..|a|] == a;
  }

  /** `tail` can follow both a shorter and a longer history only when these are the same. */
  lemma TailFixesHistory(verifies: Verifier, loaded: seq<Update>, base: seq<Update>, tail: seq<Update>)
    requires loaded <= base && tail != []
    requires Verified(verifies, loaded + tail)
    ensures Verified(verifies, base + tail) <==> loaded == base
  {
    if Verified(verifies, base + tail) {
      VerifiedLinks(verifies, base, tail);
      VerifiedLinks(verifies, loaded, tail);
      assert (base + tail)[..|base|] == base;
      VerifiedPrefix(verifies, base + tail, |base|);
      SameLastHash(verifies, loaded, base);
    }
  }

  lemma StagedHistory(staging: Updates, key: string, update: Update, other: string)
    ensures HistoryIn(Stage(staging, key, update), other) ==
            if other == key then HistoryIn(staging, other) + [update] else HistoryIn(staging, other)
  {
  }

  lemma AcceptedFields(verifies: Verifier, s: System, i: nat)
    requires i < |s.inserts| && Accepts(verifies, s, i)
    ensures var insert := s.inserts[i]; var s' := Finish(verifies, s, i);
            && s'.log == s.log && s'.taken == s.taken
            && s'.staging == Stage(s.staging, insert.key, insert.update)
            && s'.accepted == Stage(s.accepted, insert.key, insert.update)
  {
  }

  lemma StagedPipeline(s: System, s': System, key: string, update: Update, other: string)
    requires s'.log == s.log && s'.taken == s.taken && s'.staging == Stage(s.staging, key, update)
    ensures s'.Pipeline(other) == if other == key then s.Pipeline(other) + [update] else s.Pipeline(other)
  {
    StagedHistory(s.staging, key, update, other);
    var ahead, staged := Committed(s.log, other) + HistoryIn(s.Taken(), other), HistoryIn(s.staging, other);
    assert ahead + (staged + [update]) == (ahead + staged) + [update];
  }

  /** What an accepted insert does to each key's pipeline, and to the record of accepted updates. */
  lemma AcceptedPipeline(verifies: Verifier, s: System, i: nat, key: string)
    requires i < |s.inserts| && Accepts(verifies, s, i)
    ensures var insert := s.inserts[i]; var s' := Finish(verifies, s, i);
            && s'.Pipeline(key) == (if key == insert.key then s.Pipeline(key) + [insert.update] else s.Pipeline(key))
            && HistoryIn(s'.accepted, key) ==
                 (if key == insert.key then HistoryIn(s.accepted, key) + [insert.update]
                  else HistoryIn(s.accepted, key))
  {
    var insert := s.inserts[i];
    AcceptedFields(verifies, s, i);
    StagedPipeline(s, Finish(verifies, s, i), insert.key, insert.update, key);
    StagedHistory(s.accepted, insert.key, insert.update, key);
  }

  lemma CommittableStep(verifies: Verifier, s: System, i: nat)
    requires Committable(verifies, s) && i < |s.inserts| && Accepts(verifies, s, i)
    ensures Committable(verifies, Finish(verifies, s, i))
            <==> Verified(verifies, s.Pipeline(s.inserts[i].key) + [s.inserts[i].update])
  {
    var s' := Finish(verifies, s, i);
    AcceptedPipeline(verifies, s, i, s.inserts[i].key);
    forall key | key != s.inserts[i].key ensures Verified(verifies, s'.Pipeline(key)) {
      AcceptedPipeline(verifies, s, i, key);
      assert Verified(verifies, s.Pipeline(key));
    }
  }

  /** All that is committed or about to be for the key of insert `i`. */
  function Base(s: System, i: nat): seq<Update>
    requires i < |s.inserts|
  {
    Committed(s.log, s.inserts[i].key) + HistoryIn(s.Taken(), s.inserts[i].key)
  }

  /** What insert `i` would leave staged for its key. */
  function Tail(s: System, i: nat): seq<Update>
    requires i < |s.inserts|
  {
    HistoryIn(s.staging, s.inserts[i].key) + [s.inserts[i].update]
  }

  /** An accepted insert's tail follows both what it had loaded and what is there only if these are the same. */
  lemma AcceptedTail(verifies: Verifier, s: System, i: nat)
    requires Sound(verifies, s) && i < |s.inserts| && Accepts(verifies, s, i)
    ensures Verified(verifies, Base(s, i) + Tail(s, i)) <==> Fresh(s, i)
  {
    AcceptsMeansTail(verifies, s, i);
    LoadedBeforeBase(s, i);
    TailFixesHistory(verifies, s.inserts[i].loaded, Base(s, i), Tail(s, i));
  }

  lemma AcceptsMeansTail(verifies: Verifier, s: System, i: nat)
    requires i < |s.inserts|
    ensures Accepts(verifies, s, i) <==> Verified(verifies, s.inserts[i].loaded + Tail(s, i))
  {
    var insert := s.inserts[i];
    assert insert.loaded + HistoryIn(s.staging, insert.key) + [insert.update] == insert.loaded + Tail(s, i);
  }

  lemma LoadedBeforeBase(s: System, i: nat)
    requires LoadedPrefixes(s.log, s.inserts) && i < |s.inserts|
    ensures s.inserts[i].loaded <= Base(s, i)
  {
  }

  /** An accepted insert leaves everything committable exactly when the history it had loaded was fresh. */
  lemma AcceptedIsCommittableIff(verifies: Verifier, s: System, i: nat)
    requires Sound(verifies, s) && Committable(verifies, s)
    requires i < |s.inserts| && Accepts(verifies, s, i)
    ensures Committable(verifies, Finish(verifies, s, i)) <==> Fresh(s, i)
  {
    assert s.Pipeline(s.inserts[i].key) + [s.inserts[i].update] == Base(s, i) + Tail(s, i);
    AcceptedTail(verifies, s, i);
    CommittableStep(verifies, s, i);
  }

  /** A commit publishes exactly when what it took is committable; then the whole chunk goes in. */
  lemma PublishSucceeds(verifies: Verifier, s: System, time: nat)
    requires Sound(verifies, s) && Committable(verifies, s) && s.taken.Some?
    ensures PublishStep(verifies, s, time).log == s.log + [NextChunk(s.log, s.taken.value, time)]
    ensures forall key :: PublishStep(verifies, s, time).Pipeline(key) == s.Pipeline(key)
  {
    forall key | key in s.taken.value ensures Verified(verifies, HistoryIn(TreeOf(s.log), key) + s.taken.value[key]) {
      TreeIsCommitted(s.log, key);
      var pipeline := s.Pipeline(key);
      var n := |Committed(s.log, key) + s.taken.value[key]|;
      assert pipeline[..n] == Committed(s.log, key) + s.taken.value[key];
      VerifiedPrefix(verifies, pipeline, n);
    }
    ValidAppend(verifies, s.log, NextChunk(s.log, s.taken.value, time));
  }

  /** The chunk a successful commit appends carries the time of that commit and exactly what was taken. */
  lemma ChunkIsDated(verifies: Verifier, s: System, time: nat)
    requires s.taken.Some?
    ensures var log' := Step(verifies, s, PublishTaken(time)).log;
            log' != s.log ==>
              && |log'| == |s.log| + 1 && log'[..|s.log|] == s.log
              && log'[|s.log|].header.time == time && log'[|s.log|].updates == s.taken.value
  {
  }

  /** Nothing accepted is lost, duplicated or reordered. */
  ghost predicate Conserved(s: System) {
    forall key :: s.Pipeline(key) == HistoryIn(s.accepted, key)
  }

  ghost predicate Good(verifies: Verifier, s: System) {
    Sound(verifies, s) && Committable(verifies, s) && Conserved(s)
  }

  /** In this run every insert that is accepted has a fresh history when it reaches the staging lock. */
  ghost predicate FreshRun(verifies: Verifier, s: System, events: seq<Event>)
    decreases events
  {
    events != [] ==>
      && FreshEvent(verifies, s, events[0])
      && FreshRun(verifies, Step(verifies, s, events[0]), events[1..])
  }

  lemma BeginKeepsPipeline(s: System, k: string, update: Update, key: string)
    ensures Begin(s, k, update).Pipeline(key) == s.Pipeline(key) && Begin(s, k, update).accepted == s.accepted
  {
  }

  lemma PublishKeepsPipeline(verifies: Verifier, s: System, time: nat, key: string)
    requires Sound(verifies, s) && Committable(verifies, s)
    ensures PublishStep(verifies, s, time).Pipeline(key) == s.Pipeline(key)
    ensures PublishStep(verifies, s, time).accepted == s.accepted
  {
    if s.taken.Some? {
      PublishSucceeds(verifies, s, time);
    }
  }

  lemma TakeKeepsPipeline(s: System, key: string)
    ensures Take(s).Pipeline(key) == s.Pipeline(key) && Take(s).accepted == s.accepted
  {
  }

  lemma RejectedKeepsPipeline(verifies: Verifier, s: System, i: nat, key: string)
    requires i < |s.inserts| ==> !Accepts(verifies, s, i)
    ensures Finish(verifies, s, i).Pipeline(key) == s.Pipeline(key) && Finish(verifies, s, i).accepted == s.accepted
  {
  }

  lemma OtherStepsKeepPipeline(verifies: Verifier, s: System, e: Event, key: string)
    requires Sound(verifies, s) && Committable(verifies, s)
    requires e.FinishInsert? && e.i < |s.inserts| ==> !Accepts(verifies, s, e.i)
    ensures Step(verifies, s, e).Pipeline(key) == s.Pipeline(key) && Step(verifies, s, e).accepted == s.accepted
  {
    match e {
      case BeginInsert(k, update) => BeginKeepsPipeline(s, k, update, key);
      case FinishInsert(i) => RejectedKeepsPipeline(verifies, s, i, key);
      case TakeStaging => TakeKeepsPipeline(s, key);
      case PublishTaken(time) => PublishKeepsPipeline(verifies, s, time, key);
    }
  }

  /** The insert that this event finishes, if it is accepted, is fresh. */
  ghost predicate FreshEvent(verifies: Verifier, s: System, e: Event) {
    e.FinishInsert? && e.i < |s.inserts| && Accepts(verifies, s, e.i) ==> Fresh(s, e.i)
  }

  lemma AcceptedKeepsConserved(verifies: Verifier, s: System, i: nat)
    requires Conserved(s) && i < |s.inserts| && Accepts(verifies, s, i)
    ensures Conserved(Finish(verifies, s, i))
  {
    var s' := Finish(verifies, s, i);
    forall key ensures s'.Pipeline(key) == HistoryIn(s'.accepted, key) {
      AcceptedPipeline(verifies, s, i, key);
      assert s.Pipeline(key) == HistoryIn(s.accepted, key);
    }
  }

  lemma OtherStepsKeepRest(verifies: Verifier, s: System, e: Event)
    requires Good(verifies, s)
    requires e.FinishInsert? && e.i < |s.inserts| ==> !Accepts(verifies, s, e.i)
    ensures Committable(verifies, Step(verifies, s, e)) && Conserved(Step(verifies, s, e))
  {
    var s' := Step(verifies, s, e);
    forall key ensures Verified(verifies, s'.Pipeline(key)) && s'.Pipeline(key) == HistoryIn(s'.accepted, key) {
      OtherStepsKeepPipeline(verifies, s, e, key);
      assert Verified(verifies, s.Pipeline(key)) && s.Pipeline(key) == HistoryIn(s.accepted, key);
    }
  }

  /** One step keeps everything in order if and only if it accepts no stale insert. */
  lemma FreshStepIff(verifies: Verifier, s: System, e: Event)
    requires Good(verifies, s)
    ensures Good(verifies, Step(verifies, s, e)) <==> FreshEvent(verifies, s, e)
  {
    StepKeepsSound(verifies, s, e);
    if e.FinishInsert? && e.i < |s.inserts| && Accepts(verifies, s, e.i) {
      AcceptedIsCommittableIff(verifies, s, e.i);
      AcceptedKeepsConserved(verifies, s, e.i);
    } else {
      OtherStepsKeepRest(verifies, s, e);
    }
  }

  ghost predicate GoodThroughout(verifies: Verifier, s: System, events: seq<Event>)
    decreases events
  {
    Good(verifies, s) && (events != [] ==> GoodThroughout(verifies, Step(verifies, s, events[0]), events[1..]))
  }

  lemma {:induction false} GoodAtTheEnd(verifies: Verifier, s: System, events: seq<Event>)
    requires GoodThroughout(verifies, s, events)
    ensures Good(verifies, Run(verifies, s, events))
    decreases events
  {
    if events != [] {
      GoodAtTheEnd(verifies, Step(verifies, s, events[0]), events[1..]);
    }
  }

  /** Over whole runs, exactly: no commit can fail at any point, and committed, taken and staged updates together are
      at every point the accepted ones, key by key in acceptance order, if and only if every accepted insert is
      fresh. */
  lemma {:induction false} FreshRunKeepsGood(verifies: Verifier, s: System, events: seq<Event>)
    requires Good(verifies, s)
    ensures GoodThroughout(verifies, s, events) <==> FreshRun(verifies, s, events)
    decreases events
  {
    if events != [] {
      var s' := Step(verifies, s, events[0]);
      FreshStepIff(verifies, s, events[0]);
      if Good(verifies, s') {
        FreshRunKeepsGood(verifies, s', events[1..]);
      }
    }
  }

  // ---------- Atomic inserts and commits ----------

  datatype Atomic = Insert(key: string, update: Update) | Commit(time: nat) {
    function Halves(): seq<Event> {
      match this
      case Insert(key, update) => [BeginInsert(key, update), FinishInsert(0)]
      case Commit(time) => [TakeStaging, PublishTaken(time)]
    }
  }

  function AtomicStep(verifies: Verifier, s: System, e: Atomic): System {
    match e
    case Insert(key, update) => Finish(verifies, Begin(s, key, update), 0)
    case Commit(time) => PublishStep(verifies, Take(s), time)
  }

  /** An atomic step is its two halves with nothing between them. */
  lemma AtomicIsHalves(verifies: Verifier, s: System, e: Atomic)
    ensures Run(verifies, s, e.Halves()) == AtomicStep(verifies, s, e)
  {
    var halves := e.Halves();
    var half := Step(verifies, s, halves[0]);
    assert halves[1..] == [halves[1]] && [halves[1]][1..] == [];
    assert Run(verifies, half, [halves[1]]) == Run(verifies, Step(verifies, half, halves[1]), []);
  }

  function RunAtomic(verifies: Verifier, s: System, events: seq<Atomic>): System
    decreases events
  {
    if events == [] then s else RunAtomic(verifies, AtomicStep(verifies, s, events[0]), events[1..])
  }

  ghost predicate AtRest(verifies: Verifier, s: System) {
    Good(verifies, s) && s.inserts == [] && s.taken.None?
  }

  lemma PublishStepKeepsGood(verifies: Verifier, s: System, time: nat)
    requires Good(verifies, s) && s.taken.Some?
    ensures Good(verifies, PublishStep(verifies, s, time))
    ensures |PublishStep(verifies, s, time).log| == |s.log| + 1
  {
    PublishSucceeds(verifies, s, time);
    assert Step(verifies, s, PublishTaken(time)) == PublishStep(verifies, s, time);
    FreshStepIff(verifies, s, PublishTaken(time));
  }

  lemma TakeKeepsGood(verifies: Verifier, s: System)
    requires Good(verifies, s)
    ensures Good(verifies, Take(s))
  {
    assert Step(verifies, s, TakeStaging) == Take(s);
    FreshStepIff(verifies, s, TakeStaging);
  }

  /** A commit with no insert under way succeeds, empties the staging area and leaves exactly the accepted updates
      committed. */
  lemma AtomicCommit(verifies: Verifier, s: System, time: nat)
    requires AtRest(verifies, s)
    ensures var s' := AtomicStep(verifies, s, Commit(time));
            && AtRest(verifies, s') && s'.staging == map[] && |s'.log| == |s.log| + 1
            && forall key :: Committed(s'.log, key) == HistoryIn(s.accepted, key)
  {
    TakeKeepsGood(verifies, s);
    PublishStepKeepsGood(verifies, Take(s), time);
    var s' := PublishStep(verifies, Take(s), time);
    forall key ensures Committed(s'.log, key) == HistoryIn(s.accepted, key) {
      assert s'.Pipeline(key) == Committed(s'.log, key);
      assert s'.Pipeline(key) == HistoryIn(s'.accepted, key);
    }
  }

  lemma BeginIsFresh(verifies: Verifier, s: System, key: string, update: Update)
    requires AtRest(verifies, s) && s.log != []
    ensures var begun := Begin(s, key, update);
            Good(verifies, begun) && begun.taken.None? && |begun.inserts| == 1 && Fresh(begun, 0)
  {
    assert Step(verifies, s, BeginInsert(key, update)) == Begin(s, key, update);
    FreshStepIff(verifies, s, BeginInsert(key, update));
  }

  lemma AtomicInsert(verifies: Verifier, s: System, key: string, update: Update)
    requires AtRest(verifies, s)
    ensures AtRest(verifies, AtomicStep(verifies, s, Insert(key, update)))
  {
    if s.log != [] {
      BeginIsFresh(verifies, s, key, update);
      var begun := Begin(s, key, update);
      assert Step(verifies, begun, FinishInsert(0)) == Finish(verifies, begun, 0);
      FreshStepIff(verifies, begun, FinishInsert(0));
    }
  }

  lemma BegunAccepts(verifies: Verifier, s: System, key: string, update: Update)
    requires AtRest(verifies, s) && s.log != []
    ensures var begun := Begin(s, key, update);
            && begun.inserts == [InFlight(key, update, Committed(s.log, key))]
            && (Accepts(verifies, begun, 0) <==> Verified(verifies, HistoryIn(s.accepted, key) + [update]))
  {
    AtRestHistory(s, key);
    assert s.Pipeline(key) == HistoryIn(s.accepted, key);
  }

  lemma FinishRecords(verifies: Verifier, s: System, i: nat)
    requires i < |s.inserts|
    ensures var key := s.inserts[i].key;
            HistoryIn(Finish(verifies, s, i).accepted, key)
            == if Accepts(verifies, s, i) then HistoryIn(s.accepted, key) + [s.inserts[i].update]
               else HistoryIn(s.accepted, key)
  {
    if Accepts(verifies, s, i) {
      AcceptedFields(verifies, s, i);
      StagedHistory(s.accepted, s.inserts[i].key, s.inserts[i].update, s.inserts[i].key);
    }
  }

  lemma AcceptedMeans(verifies: Verifier, s: System, key: string, update: Update)
    requires Good(verifies, s)
    ensures var before := HistoryIn(s.accepted, key);
            Verified(verifies, before + [update])
            <==> update.prev == LastHash(before) && Authorized(verifies, before + [update], |before|)
  {
    AcceptedVerifies(verifies, s, key);
    LastMeansAuthorized(verifies, HistoryIn(s.accepted, key), update);
  }

  lemma AcceptedVerifies(verifies: Verifier, s: System, key: string)
    requires Good(verifies, s)
    ensures Verified(verifies, HistoryIn(s.accepted, key))
  {
    assert s.Pipeline(key) == HistoryIn(s.accepted, key);
  }

  lemma LastMeansAuthorized(verifies: Verifier, before: seq<Update>, update: Update)
    requires Verified(verifies, before)
    ensures Verified(verifies, before + [update])
            <==> update.prev == LastHash(before) && Authorized(verifies, before + [update], |before|)
  {
    var more := before + [update];
    assert more[..|before|] == before;
    CheckMeansAuthorized(verifies, more);
  }

  /** An atomic insert, by meaning: it is accepted, and then recorded last, exactly if there is a chunk already and it
      links to the last update accepted for its key and is signed by a current owner there or founds the history. */
  lemma AtomicInsertIff(verifies: Verifier, s: System, key: string, update: Update)
    requires AtRest(verifies, s)
    ensures var before := HistoryIn(s.accepted, key);
            var after := HistoryIn(AtomicStep(verifies, s, Insert(key, update)).accepted, key);
            if s.log != [] && update.prev == LastHash(before) && Authorized(verifies, before + [update], |before|)
            then after == before + [update] else after == before
  {
    if s.log != [] {
      BegunAccepts(verifies, s, key, update);
      FinishRecords(verifies, Begin(s, key, update), 0);
      AcceptedMeans(verifies, s, key, update);
    }
  }

  lemma AtRestHistory(s: System, key: string)
    requires s.taken.None?
    ensures s.Pipeline(key) == Committed(s.log, key) + HistoryIn(s.staging, key)
  {
    assert Committed(s.log, key) + [] == Committed(s.log, key);
  }

  /** With inserts and commits as atomic steps, every commit succeeds and nothing accepted is lost. */
  lemma {:induction false} AtomicRunAtRest(verifies: Verifier, s: System, events: seq<Atomic>)
    requires AtRest(verifies, s)
    ensures AtRest(verifies, RunAtomic(verifies, s, events))
    decreases events
  {
    if events != [] {
      match events[0] {
        case Insert(key, update) => AtomicInsert(verifies, s, key, update);
        case Commit(time) => AtomicCommit(verifies, s, time);
      }
      AtomicRunAtRest(verifies, AtomicStep(verifies, s, events[0]), events[1..]);
    }
  }

  lemma InitialAtRest(verifies: Verifier)
    ensures AtRest(verifies, INITIAL)
  {
    forall key ensures INITIAL.Pipeline(key) == [] {
    }
  }

  // ---------- No empty histories ----------

  ghost predicate NoEmptyLists(updates: Updates) {
    forall key | key in updates :: updates[key] != []
  }

  ghost predicate NoEmptyChunks(log: Log) {
    forall chunk | chunk in log :: NoEmptyLists(chunk.updates)
  }

  /** No update list anywhere is empty. */
  ghost predicate NoEmpty(s: System) {
    NoEmptyChunks(s.log) && NoEmptyLists(s.staging) && NoEmptyLists(s.Taken())
  }

  lemma StepKeepsNoEmpty(verifies: Verifier, s: System, e: Event)
    requires NoEmpty(s)
    ensures NoEmpty(Step(verifies, s, e))
  {
    if e.PublishTaken? && s.taken.Some? {
      assert forall chunk | chunk in PublishStep(verifies, s, e.time).log ::
          chunk in s.log || chunk == NextChunk(s.log, s.taken.value, e.time);
    }
  }

  lemma {:induction false} RunKeepsNoEmpty(verifies: Verifier, s: System, events: seq<Event>)
    requires NoEmpty(s)
    ensures NoEmpty(Run(verifies, s, events))
    decreases events
  {
    if events != [] {
      StepKeepsNoEmpty(verifies, s, events[0]);
      RunKeepsNoEmpty(verifies, Step(verifies, s, events[0]), events[1..]);
    }
  }

  lemma {:induction false} AtomicRunKeepsNoEmpty(verifies: Verifier, s: System, events: seq<Atomic>)
    requires NoEmpty(s)
    ensures NoEmpty(RunAtomic(verifies, s, events))
    decreases events
  {
    if events != [] {
      AtomicIsHalves(verifies, s, events[0]);
      RunKeepsNoEmpty(verifies, s, events[0].Halves());
      AtomicRunKeepsNoEmpty(verifies, AtomicStep(verifies, s, events[0]), events[1..]);
    }
  }

  /** No key is stored with an empty history. */
  lemma {:induction false} TreeHasNoEmpty(log: Log, key: string)
    requires NoEmptyChunks(log) && key in TreeOf(log)
    ensures TreeOf(log)[key] != []
    decreases |log|
  {
    var front, chunk := log[..|log| - 1], log[|log| - 1];
    assert chunk in log && forall c | c in front :: c in log;
    if key !in chunk.updates {
      TreeHasNoEmpty(front, key);
    }
  }

  /** The directory never stores an empty history, so never one that would be read as absence. */
  lemma StoresNoEmptyHistory(verifies: Verifier, events: seq<Event>, key: string)
    requires key in TreeOf(Run(verifies, INITIAL, events).log)
    ensures TreeOf(Run(verifies, INITIAL, events).log)[key] != []
  {
    RunKeepsNoEmpty(verifies, INITIAL, events);
    TreeHasNoEmpty(Run(verifies, INITIAL, events).log, key);
  }

  // ---------- The stale insert ----------

  /** An insert accepted on a stale history makes a later commit lose everything staged, other keys included: the
      next commit or, if the insert landed between the halves of one, which still succeeds, the one after it. */
  lemma StaleInsertDropsChunk(verifies: Verifier, s: System, i: nat, time: nat, next: nat)
    requires Sound(verifies, s) && Committable(verifies, s)
    requires i < |s.inserts| && Accepts(verifies, s, i) && !Fresh(s, i)
    ensures var published := PublishStep(verifies, Finish(verifies, s, i), time);
            var s' := AtomicStep(verifies, published, Commit(next));
            && published.log == PublishStep(verifies, s, time).log
            && |published.log| == |s.log| + (if s.taken.Some? then 1 else 0)
            && s'.log == published.log && s'.staging == map[] && s'.taken.None?
  {
    var key, published := s.inserts[i].key, PublishStep(verifies, Finish(verifies, s, i), time);
    StagedByFinish(verifies, s, i);
    PublishedBeforeStale(verifies, s, i, time);
    AcceptedTail(verifies, s, i);
    CommitFails(verifies, published, key, next);
  }

  /** The batch a stale insert lands behind is published all the same. */
  lemma PublishedBeforeStale(verifies: Verifier, s: System, i: nat, time: nat)
    requires Sound(verifies, s) && Committable(verifies, s) && i < |s.inserts| && Accepts(verifies, s, i)
    ensures var published := PublishStep(verifies, Finish(verifies, s, i), time);
            && published.log == PublishStep(verifies, s, time).log && published.taken.None?
            && |published.log| == |s.log| + (if s.taken.Some? then 1 else 0)
            && published.staging == Finish(verifies, s, i).staging
            && Committed(published.log, s.inserts[i].key) == Base(s, i)
  {
    AcceptedFields(verifies, s, i);
    PublishedHeight(verifies, s, time);
    PublishedCommitted(verifies, s, time, s.inserts[i].key);
  }

  lemma PublishedHeight(verifies: Verifier, s: System, time: nat)
    requires Sound(verifies, s) && Committable(verifies, s)
    ensures |PublishStep(verifies, s, time).log| == |s.log| + (if s.taken.Some? then 1 else 0)
  {
    if s.taken.Some? {
      PublishSucceeds(verifies, s, time);
    }
  }

  lemma PublishedCommitted(verifies: Verifier, s: System, time: nat, key: string)
    requires Sound(verifies, s) && Committable(verifies, s)
    ensures Committed(PublishStep(verifies, s, time).log, key) == Committed(s.log, key) + HistoryIn(s.Taken(), key)
  {
    if s.taken.Some? {
      PublishSucceeds(verifies, s, time);
      ValidAppend(verifies, s.log, NextChunk(s.log, s.taken.value, time));
    } else {
      assert Committed(s.log, key) + [] == Committed(s.log, key);
    }
  }

  lemma StagedByFinish(verifies: Verifier, s: System, i: nat)
    requires i < |s.inserts| && Accepts(verifies, s, i)
    ensures var insert := s.inserts[i]; var s' := Finish(verifies, s, i);
            && insert.key in s'.staging && s'.staging[insert.key] == Tail(s, i)
            && s'.log == s.log && s'.taken == s.taken
  {
  }

  /** One key whose staged updates do not extend its history is enough to lose the whole chunk. */
  lemma CommitFails(verifies: Verifier, s: System, key: string, time: nat)
    requires s.taken.None? && key in s.staging && !Verified(verifies, Committed(s.log, key) + s.staging[key])
    ensures var s' := AtomicStep(verifies, s, Commit(time));
            s'.log == s.log && s'.staging == map[] && s'.taken.None?
  {
    TreeIsCommitted(s.log, key);
    assert !Extends(verifies, TreeOf(s.log), s.staging);
  }

  /** The first update of a key: an owner that adds itself. */
  predicate Founds(verifies: Verifier, u: Update) {
    u.prev == Zero && u.body.AddOwner? && verifies(u.body.pk, u)
  }

  const GENESIS := Chunk(Header(Zero, OfTree(map[]), 0), map[])

  /** The history [first] of a key is committed while an insert of `rival` still holds the empty history it loaded
      before. */
  function RaceState(key: string, first: Update, rival: Update): System {
    var chunk := Chunk(Header(OfHeader(GENESIS.header), OfTree(map[key := [first]]), 1), map[key := [first]]);
    System([GENESIS, chunk], map[], [InFlight(key, rival, [])], None, map[key := [first]])
  }

  /** Both inserts have begun on an empty directory. */
  function RaceBegun(key: string, first: Update, rival: Update): System {
    System([GENESIS], map[], [InFlight(key, rival, []), InFlight(key, first, [])], None, map[])
  }

  lemma GenesisState(verifies: Verifier)
    ensures AtomicStep(verifies, INITIAL, Commit(0)) == System([GENESIS], map[], [], None, map[])
  {
    NoUpdates(TreeOf([]));
  }

  lemma FoundsVerifies(verifies: Verifier, u: Update)
    requires Founds(verifies, u)
    ensures Verified(verifies, [u])
  {
    assert [u][..0] == [];
    assert Fold(verifies, []).Ok?;
  }

  lemma RaceTree(key: string, first: Update)
    ensures TreeOf([GENESIS]) == map[] && Committed([GENESIS], key) == []
    ensures ApplyUpdates(TreeOf([GENESIS]), map[key := [first]]) == map[key := [first]]
  {
    assert [GENESIS][..0] == [];
    NoUpdates(TreeOf([]));
    assert HistoryIn(map[], key) + [first] == [first];
  }

  lemma RaceSetsOut(verifies: Verifier, key: string, first: Update, rival: Update)
    ensures Begin(Begin(AtomicStep(verifies, INITIAL, Commit(0)), key, rival), key, first)
            == RaceBegun(key, first, rival)
  {
    GenesisState(verifies);
    RaceTree(key, first);
  }

  lemma RaceFinishes(verifies: Verifier, key: string, first: Update, rival: Update)
    requires Founds(verifies, first)
    ensures var s := RaceBegun(key, first, rival);
            && Accepts(verifies, s, 1)
            && Finish(verifies, s, 1) ==
               System([GENESIS], map[key := [first]], [InFlight(key, rival, [])], None, map[key := [first]])
  {
    var s := RaceBegun(key, first, rival);
    assert [] + HistoryIn(s.staging, key) + [first] == [first];
    FoundsVerifies(verifies, first);
    assert s.inserts[..1] + s.inserts[2..] == [InFlight(key, rival, [])];
  }

  lemma RaceCommits(verifies: Verifier, key: string, first: Update, rival: Update)
    requires Founds(verifies, first)
    ensures AtomicStep(verifies, Finish(verifies, RaceBegun(key, first, rival), 1), Commit(1))
            == RaceState(key, first, rival)
  {
    RaceFinishes(verifies, key, first, rival);
    RaceTree(key, first);
    FoundsVerifies(verifies, first);
    assert HistoryIn(map[], key) + [first] == [first];
    assert Extends(verifies, TreeOf([GENESIS]), map[key := [first]]);
  }

  lemma {:induction false} RunJoin(verifies: Verifier, s: System, events: seq<Event>, more: seq<Event>)
    ensures Run(verifies, s, events + more) == Run(verifies, Run(verifies, s, events), more)
    decreases |events|
  {
    if events == [] {
      assert events + more == more;
    } else {
      assert (events + more)[1..] == events[1..] + more;
      RunJoin(verifies, Step(verifies, s, events[0]), events[1..], more);
    }
  }

  lemma RunOne(verifies: Verifier, s: System, e: Event)
    ensures Run(verifies, s, [e]) == Step(verifies, s, e)
  {
    assert Run(verifies, s, [e]) == Run(verifies, Step(verifies, s, e), []);
  }

  lemma RunTwo(verifies: Verifier, s: System, x: Event, y: Event)
    ensures Run(verifies, s, [x, y]) == Step(verifies, Step(verifies, s, x), y)
  {
    assert [x, y] == [x] + [y];
    RunJoin(verifies, s, [x], [y]);
    RunOne(verifies, s, x);
    RunOne(verifies, Step(verifies, s, x), y);
  }

  /** A first commit, both inserts begun. */
  function RaceBegins(key: string, first: Update, rival: Update): seq<Event> {
    Commit(0).Halves() + [BeginInsert(key, rival), BeginInsert(key, first)]
  }

  /** Then one of them finished, and a commit. */
  function RaceEvents(key: string, first: Update, rival: Update): seq<Event> {
    RaceBegins(key, first, rival) + ([FinishInsert(1)] + Commit(1).Halves())
  }

  lemma RaceRunBegins(verifies: Verifier, key: string, first: Update, rival: Update)
    ensures Run(verifies, INITIAL, RaceBegins(key, first, rival)) == RaceBegun(key, first, rival)
  {
    var genesis := AtomicStep(verifies, INITIAL, Commit(0));
    RunJoin(verifies, INITIAL, Commit(0).Halves(), [BeginInsert(key, rival), BeginInsert(key, first)]);
    AtomicIsHalves(verifies, INITIAL, Commit(0));
    RunTwo(verifies, genesis, BeginInsert(key, rival), BeginInsert(key, first));
    RaceSetsOut(verifies, key, first, rival);
  }

  lemma RunFinishAndCommit(verifies: Verifier, s: System, i: nat, time: nat)
    ensures Run(verifies, s, [FinishInsert(i)] + Commit(time).Halves())
            == AtomicStep(verifies, Finish(verifies, s, i), Commit(time))
  {
    RunJoin(verifies, s, [FinishInsert(i)], Commit(time).Halves());
    RunOne(verifies, s, FinishInsert(i));
    AtomicIsHalves(verifies, Finish(verifies, s, i), Commit(time));
  }

  /** Such a state is reached by a run: begin both inserts, finish one, commit. */
  lemma RaceIsReachable(verifies: Verifier, key: string, first: Update, rival: Update)
    requires Founds(verifies, first)
    ensures Run(verifies, INITIAL, RaceEvents(key, first, rival)) == RaceState(key, first, rival)
  {
    RunJoin(verifies, INITIAL, RaceBegins(key, first, rival), [FinishInsert(1)] + Commit(1).Halves());
    RaceRunBegins(verifies, key, first, rival);
    RunFinishAndCommit(verifies, RaceBegun(key, first, rival), 1, 1);
    RaceCommits(verifies, key, first, rival);
  }

  lemma RaceCommitted(key: string, first: Update, rival: Update)
    ensures Committed(RaceState(key, first, rival).log, key) == [first]
  {
    var s := RaceState(key, first, rival);
    assert s.log[..1] == [s.log[0]];
    RaceTree(key, first);
    assert [] + [first] == [first];
  }

  /** In that state the stale insert is accepted though it is not fresh. */
  lemma RaceAcceptsStale(verifies: Verifier, key: string, first: Update, rival: Update)
    requires Founds(verifies, rival)
    ensures Accepts(verifies, RaceState(key, first, rival), 0) && !Fresh(RaceState(key, first, rival), 0)
  {
    var s := RaceState(key, first, rival);
    assert [] + HistoryIn(s.staging, key) + [rival] == [rival];
    FoundsVerifies(verifies, rival);
    RaceCommitted(key, first, rival);
  }

  lemma BegunIsGood(verifies: Verifier, s: System, key: string, update: Update)
    requires Good(verifies, s)
    ensures Good(verifies, Begin(s, key, update))
  {
    assert Step(verifies, s, BeginInsert(key, update)) == Begin(s, key, update);
    FreshStepIff(verifies, s, BeginInsert(key, update));
  }

  lemma RaceBegunIsGood(verifies: Verifier, key: string, first: Update, rival: Update)
    ensures Good(verifies, RaceBegun(key, first, rival))
  {
    var genesis := AtomicStep(verifies, INITIAL, Commit(0));
    InitialAtRest(verifies);
    AtomicCommit(verifies, INITIAL, 0);
    BegunIsGood(verifies, genesis, key, rival);
    BegunIsGood(verifies, Begin(genesis, key, rival), key, first);
    RaceSetsOut(verifies, key, first, rival);
  }

  lemma RaceFinishedIsGood(verifies: Verifier, key: string, first: Update, rival: Update)
    requires Founds(verifies, first)
    ensures Good(verifies, Finish(verifies, RaceBegun(key, first, rival), 1))
  {
    var begun := RaceBegun(key, first, rival);
    RaceBegunIsGood(verifies, key, first, rival);
    RaceTree(key, first);
    assert Fresh(begun, 1);
    assert Step(verifies, begun, FinishInsert(1)) == Finish(verifies, begun, 1);
    FreshStepIff(verifies, begun, FinishInsert(1));
  }

  lemma RaceIsGood(verifies: Verifier, key: string, first: Update, rival: Update)
    requires Founds(verifies, first)
    ensures Good(verifies, RaceState(key, first, rival))
  {
    var finished := Finish(verifies, RaceBegun(key, first, rival), 1);
    RaceFinishedIsGood(verifies, key, first, rival);
    TakeKeepsGood(verifies, finished);
    PublishStepKeepsGood(verifies, Take(finished), 1);
    RaceCommits(verifies, key, first, rival);
  }

  lemma NothingOnItsWay(s: System, key: string)
    requires s.staging == map[] && s.taken.None?
    ensures s.Pipeline(key) == Committed(s.log, key)
  {
  }

  lemma CommitKeepsAccepted(verifies: Verifier, s: System, time: nat)
    ensures AtomicStep(verifies, s, Commit(time)).accepted == s.accepted
  {
  }

  lemma RaceDropped(verifies: Verifier, key: string, first: Update, rival: Update)
    requires Founds(verifies, first) && Founds(verifies, rival)
    ensures var s' := AtomicStep(verifies, Finish(verifies, RaceState(key, first, rival), 0), Commit(2));
            s'.log == RaceState(key, first, rival).log && s'.staging == map[] && s'.taken.None?
  {
    var s := RaceState(key, first, rival);
    RaceIsGood(verifies, key, first, rival);
    RaceAcceptsStale(verifies, key, first, rival);
    StagedByFinish(verifies, s, 0);
    StaleInsertDropsChunk(verifies, s, 0, 0, 2);
  }

  lemma RaceAccepted(verifies: Verifier, key: string, first: Update, rival: Update)
    requires Founds(verifies, rival)
    ensures var s' := AtomicStep(verifies, Finish(verifies, RaceState(key, first, rival), 0), Commit(2));
            HistoryIn(s'.accepted, key) == [first, rival]
  {
    var s := RaceState(key, first, rival);
    RaceAcceptsStale(verifies, key, first, rival);
    CommitKeepsAccepted(verifies, Finish(verifies, s, 0), 2);
    AcceptedFields(verifies, s, 0);
    StagedHistory(s.accepted, key, rival, key);
    assert HistoryIn(s.accepted, key) == [first];
  }

  /** From that state, where everything was in order, the rival insert is reported as accepted and the commit after
      it loses it. */
  lemma RaceLosesUpdate(verifies: Verifier, key: string, first: Update, rival: Update)
    requires Founds(verifies, first) && Founds(verifies, rival)
    ensures Good(verifies, RaceState(key, first, rival))
    ensures var s' := Run(verifies, INITIAL, RaceEvents(key, first, rival) + ([FinishInsert(0)] + Commit(2).Halves()));
            HistoryIn(s'.accepted, key) == [first, rival] && s'.Pipeline(key) == [first]
  {
    RunJoin(verifies, INITIAL, RaceEvents(key, first, rival), [FinishInsert(0)] + Commit(2).Halves());
    RaceIsReachable(verifies, key, first, rival);
    RunFinishAndCommit(verifies, RaceState(key, first, rival), 0, 2);
    RaceIsGood(verifies, key, first, rival);
    RaceAccepted(verifies, key, first, rival);
    RaceDropped(verifies, key, first, rival);
    RaceCommitted(key, first, rival);
    NothingOnItsWay(AtomicStep(verifies, Finish(verifies, RaceState(key, first, rival), 0), Commit(2)), key);
  }
}
