/** Mailbox delivery: readers that feed back their cursors, the worker that polls for them, and the server. */
module MailboxDelivery {
  import opened Common
  import opened MailboxPages
  import opened LongPoller

  // ---------- Readers, worker and server together ----------

  /** A reader is idle, waits for the answer to a request, or holds an answer it has not consumed. */
  datatype Phase = Idle | Waiting(id: nat) | Holding(entry: Entry)

  datatype Reader = Reader(mailbox: Mailbox, token: Token, start: nat, cursor: nat, received: Box, phase: Phase)

  /** The server's reply to the poll in flight, on its way to the worker. */
  datatype Reply = Reply(key: Key, page: Box)

  /** `poll` is the worker's poll in flight. `settled` are the requests responded to, with an entry or an error. */
  datatype System = System(boxes: map<Mailbox, Box>, readers: map<nat, Reader>, pending: seq<Request>,
                           poll: Option<Poll>, reply: Option<Reply>, nextId: nat, settled: set<nat>)
  {
    function BoxOf(m: Mailbox): Box { if m in boxes then boxes[m] else [] }
  }

  /** `Serve` is the server computing the page of one argument of the poll, `Respond` the worker handling the
      reply, `Drop` a poll that times out or loses its connection, `Fail` an error reply or a shutdown, and
      `Abandon` a reader dropping its request or an answer it has not looked at. */
  datatype Event =
    | Append(mailbox: Mailbox, entry: Entry)
    | Ask(reader: nat)
    | Abandon(reader: nat)
    | Consume(reader: nat)
    | StartPoll
    | Serve(key: Key)
    | Respond
    | Drop
    | Fail

  function AnswerFor(answers: seq<Answer>, id: nat): Option<Entry> {
    if answers == [] then None
    else if answers[0].request.id == id then Some(answers[0].entry)
    else AnswerFor(answers[1..], id)
  }

  function Deliver(reader: Reader, answers: seq<Answer>): Reader {
    if reader.phase.Waiting? && AnswerFor(answers, reader.phase.id).Some?
    then reader.(phase := Holding(AnswerFor(answers, reader.phase.id).value)) else reader
  }

  function SetReader(s: System, r: nat, reader: Reader): System { s.(readers := s.readers[r := reader]) }

  function NoPoll(s: System): System { s.(poll := None, reply := None) }

  /** An entry with the time of another in its mailbox is refused; any other time finds its place. */
  function DoAppend(s: System, m: Mailbox, e: Entry): System {
    if NewTime(s.BoxOf(m), e) then s.(boxes := s.boxes[m := Arrive(s.BoxOf(m), e)]) else s
  }

  /** The request reaches the worker and cancels a poll in flight. */
  function DoAsk(s: System, r: nat): System {
    if r !in s.readers || !s.readers[r].phase.Idle? then s
    else
      var reader := s.readers[r];
      var q := Request(s.nextId, r, reader.mailbox, reader.token, reader.cursor);
      NoPoll(SetReader(s, r, reader.(phase := Waiting(s.nextId)))).(pending := s.pending + [q], nextId := s.nextId + 1)
  }

  function DoAbandon(s: System, r: nat): System {
    if r in s.readers then SetReader(s, r, s.readers[r].(phase := Idle)) else s
  }

  function Consumed(reader: Reader): Reader
    requires reader.phase.Holding?
  {
    var e := reader.phase.entry;
    reader.(phase := Idle, cursor := e.at, received := reader.received + [e])
  }

  function DoConsume(s: System, r: nat): System {
    if r !in s.readers || !s.readers[r].phase.Holding? then s else SetReader(s, r, Consumed(s.readers[r]))
  }

  function Ids(pending: seq<Request>): set<nat> { set q | q in pending :: q.id }

  function DoStartPoll(s: System): System {
    if s.pending == [] || s.poll.Some? then s else s.(poll := Some(PollFor(s.pending)), reply := None)
  }

  /** The server answers with the first argument that has entries, and waits while none has. */
  function DoServe(s: System, key: Key): System {
    if s.poll.None? || s.reply.Some? || key !in s.poll.value.args then s
    else
      var page := Page(s.BoxOf(key.0), s.poll.value.args[key]);
      if page == [] then s else s.(reply := Some(Reply(key, page)))
  }

  function ResponseOf(reply: Reply): Response { map[reply.key.0 := reply.page] }

  /** The state after these answers, with these requests left. */
  function Settle(s: System, answers: seq<Answer>, still: seq<Request>): System {
    NoPoll(s).(readers := map r | r in s.readers :: Deliver(s.readers[r], answers),
               pending := still,
               settled := s.settled + set a | a in answers :: a.request.id)
  }

  function DoRespond(s: System): System {
    if s.poll.None? || s.reply.None? then s
    else
      var response, indices := ResponseOf(s.reply.value), s.poll.value.indices;
      Settle(s, AnsweredFrom(response, indices, s.pending, 0), UnansweredFrom(response, indices, s.pending, 0))
  }

  function DoFail(s: System): System {
    NoPoll(s).(readers := map r | r in s.readers ::
                 if s.readers[r].phase.Waiting? then s.readers[r].(phase := Idle) else s.readers[r],
               pending := [], settled := s.settled + Ids(s.pending))
  }

  function Step(s: System, e: Event): System {
    match e
    case Append(m, entry) => DoAppend(s, m, entry)
    case Ask(r) => DoAsk(s, r)
    case Abandon(r) => DoAbandon(s, r)
    case Consume(r) => DoConsume(s, r)
    case StartPoll => DoStartPoll(s)
    case Serve(key) => DoServe(s, key)
    case Respond => DoRespond(s)
    case Drop => NoPoll(s)
    case Fail => DoFail(s)
  }

  function Run(s: System, events: seq<Event>): System
    decreases events
  {
    if events == [] then s else Run(Step(s, events[0]), events[1..])
  }

  // ---------- What holds in every state ----------

  /** The entries a reader has received are the first ones beyond its start cursor: in order, no gap, no repeat. */
  ghost predicate InOrder(box: Box, reader: Reader) {
    var newer := Newer(box, reader.start);
    && reader.received <= newer
    && reader.cursor == (if reader.received == [] then reader.start else reader.received[|reader.received| - 1].at)
    && (reader.phase.Holding? ==> FirstAfter(box, reader.cursor) == Some(reader.phase.entry))
  }

  /** A pending request speaks for its reader's mailbox and token, and for its cursor while the reader waits for it. */
  ghost predicate Matches(q: Request, reader: Reader) {
    && q.mailbox == reader.mailbox && q.token == reader.token
    && (reader.phase == Waiting(q.id) ==> q.after == reader.cursor)
  }

  ghost predicate DistinctIds(pending: seq<Request>) {
    forall i, j | 0 <= i < j < |pending| :: pending[i].id != pending[j].id
  }

  ghost predicate OneToken(readers: map<nat, Reader>) {
    forall r, r' | r in readers && r' in readers && readers[r].mailbox == readers[r'].mailbox ::
        readers[r].token == readers[r'].token
  }

  /** Every request ever made is pending or settled, never both. */
  ghost predicate Accounted(s: System) {
    && DistinctIds(s.pending)
    && (forall id :: id in Ids(s.pending) || id in s.settled <==> 0 <= id < s.nextId)
    && Ids(s.pending) !! s.settled
  }

  ghost predicate BoxesIncrease(s: System) {
    forall m | m in s.boxes :: Increasing(s.boxes[m])
  }

  ghost predicate ReadersInOrder(s: System) {
    forall r | r in s.readers :: InOrder(s.BoxOf(s.readers[r].mailbox), s.readers[r])
  }

  ghost predicate RequestsMatch(s: System) {
    forall q | q in s.pending :: q.reader in s.readers && Matches(q, s.readers[q.reader])
  }

  ghost predicate WaitersPending(s: System) {
    forall r | r in s.readers && s.readers[r].phase.Waiting? ::
      exists q :: q in s.pending && q.reader == r && q.id == s.readers[r].phase.id
  }

  /** The indices of a poll in flight match the pending requests, and its cursors are at most theirs. */
  ghost predicate PollMatches(s: System) {
    s.poll.Some? ==> Covering(s.pending, s.poll.value)
  }

  /** A reply in flight answers an argument of the poll: its page is the start of what is newer in the mailbox than
      that argument's cursor, as it is when the page is cut and while nothing arrives in between. */
  ghost predicate ReplyStands(s: System) {
    s.reply.Some? ==>
      var key, page := s.reply.value.key, s.reply.value.page;
      && s.poll.Some? && key in s.poll.value.args
      && page != [] && page <= Newer(s.BoxOf(key.0), s.poll.value.args[key])
  }

  ghost predicate Sane(s: System) {
    && BoxesIncrease(s) && ReadersInOrder(s) && RequestsMatch(s) && WaitersPending(s) && Accounted(s)
    && PollMatches(s) && ReplyStands(s)
  }

  // ---------- Appends ----------

  /** The entry is later than all there are. */
  ghost predicate Latest(box: Box, e: Entry) {
    forall b | b in box :: b.at < e.at
  }

  /** The time up to which a reader has taken the entries, or holds one to take. */
  function Reach(reader: Reader): nat {
    if reader.phase.Holding? then reader.phase.entry.at else reader.cursor
  }

  /** An entry that arrives with an earlier time than others leaves a reader in order at that moment exactly if the
      reader has not passed it. */
  lemma ArriveInOrderIff(box: Box, e: Entry, reader: Reader)
    requires Increasing(box) && InOrder(box, reader) && NewTime(box, e)
    ensures InOrder(Arrive(box, e), reader) <==> !(reader.start < e.at <= Reach(reader))
  {
    var newer, k := Newer(box, reader.start), |reader.received|;
    NewerFilters(box, reader.start);
    NewerIncreases(box, reader.start);
    NewerArrive(box, e, reader.start);
    assert reader.received == newer[..k];
    PrefixArrive(newer, e, k);
    if k > 0 {
      assert newer[k - 1] in newer;
    }
    if reader.phase.Holding? {
      FirstArrive(box, e, reader.cursor);
      FirstOfNewer(box, reader.cursor, reader.cursor);
      NewerFilters(box, reader.cursor);
      assert reader.phase.entry in Newer(box, reader.cursor);
    }
  }

  /** The entry is behind a reader of its mailbox: it belongs after the reader's start and before what the reader has
      taken or holds. */
  predicate Behind(s: System, m: Mailbox, e: Entry, r: nat) {
    && r in s.readers && s.readers[r].mailbox == m
    && s.readers[r].start < e.at <= Reach(s.readers[r])
  }

  /** The entry belongs into the page of the reply in flight, and is not on it. */
  predicate MissesReply(s: System, m: Mailbox, e: Entry) {
    && s.poll.Some? && s.reply.Some?
    && var key, page := s.reply.value.key, s.reply.value.page;
       && key.0 == m && key in s.poll.value.args && page != []
       && s.poll.value.args[key] < e.at < page[|page| - 1].at
  }

  /** The append disturbs nobody: it is refused, or is behind no reader and misses no reply. */
  ghost predicate DisturbsNobody(s: System, m: Mailbox, e: Entry) {
    NewTime(s.BoxOf(m), e) ==> (forall r :: !Behind(s, m, e, r)) && !MissesReply(s, m, e)
  }

  lemma AppendReadersIff(s: System, m: Mailbox, e: Entry)
    requires BoxesIncrease(s) && ReadersInOrder(s) && NewTime(s.BoxOf(m), e)
    ensures ReadersInOrder(DoAppend(s, m, e)) <==> forall r :: !Behind(s, m, e, r)
  {
    var box, s' := s.BoxOf(m), DoAppend(s, m, e);
    forall r | r in s.readers
      ensures InOrder(s'.BoxOf(s'.readers[r].mailbox), s'.readers[r]) <==> !Behind(s, m, e, r)
    {
      assert InOrder(s.BoxOf(s.readers[r].mailbox), s.readers[r]);
      if s.readers[r].mailbox == m {
        BoxIncreases(s, m);
        ArriveInOrderIff(box, e, s.readers[r]);
      }
    }
  }

  lemma BoxIncreases(s: System, m: Mailbox)
    requires BoxesIncrease(s)
    ensures Increasing(s.BoxOf(m))
  {
  }

  lemma AppendReplyIff(s: System, m: Mailbox, e: Entry)
    requires BoxesIncrease(s) && ReplyStands(s) && NewTime(s.BoxOf(m), e)
    ensures ReplyStands(DoAppend(s, m, e)) <==> !MissesReply(s, m, e)
  {
    if s.reply.Some? && s.reply.value.key.0 == m {
      var box, page, low := s.BoxOf(m), s.reply.value.page, s.poll.value.args[s.reply.value.key];
      BoxIncreases(s, m);
      PageArriveIff(box, page, low, e);
    }
  }

  lemma AppendKeepsBoxes(s: System, m: Mailbox, e: Entry)
    requires BoxesIncrease(s)
    ensures BoxesIncrease(DoAppend(s, m, e))
  {
    BoxIncreases(s, m);
    if NewTime(s.BoxOf(m), e) {
      ArriveIncreases(s.BoxOf(m), e);
    }
  }

  /** The exact condition for one append, whatever its time: everything is kept if and only if it disturbs nobody. */
  lemma AppendSaneIff(s: System, m: Mailbox, e: Entry)
    requires Sane(s)
    ensures Sane(DoAppend(s, m, e)) <==> DisturbsNobody(s, m, e)
  {
    AppendKeepsBoxes(s, m, e);
    if NewTime(s.BoxOf(m), e) {
      AppendReadersIff(s, m, e);
      AppendReplyIff(s, m, e);
    }
  }

  /** What an append does to the mailboxes: a new time adds exactly this entry to exactly this one. */
  lemma AppendStores(s: System, m: Mailbox, e: Entry)
    ensures var s' := Step(s, Append(m, e));
            && (forall b :: b in s'.BoxOf(m)
                            <==> b in s.BoxOf(m) || (b == e && forall c | c in s.BoxOf(m) :: c.at != e.at))
            && (forall other | other != m :: s'.BoxOf(other) == s.BoxOf(other))
            && s'.readers == s.readers && s'.pending == s.pending && s'.poll == s.poll && s'.reply == s.reply
  {
    ArriveHolds(s.BoxOf(m), e);
  }

  lemma OtherStepsKeepBoxes(s: System, e: Event)
    requires !e.Append?
    ensures Step(s, e).boxes == s.boxes
  {
  }

  /** Event `i` is an append of `e` to `m` that is not refused. */
  predicate Stores(s: System, events: seq<Event>, i: nat, m: Mailbox, e: Entry) {
    && i < |events| && events[i] == Append(m, e)
    && forall b | b in Run(s, events[..i]).BoxOf(m) :: b.at != e.at
  }

  lemma RunOneMore(s: System, events: seq<Event>, e: Event)
    ensures Run(s, events + [e]) == Step(Run(s, events), e)
  {
    RunJoin(s, events, [e]);
    assert Run(Run(s, events), [e]) == Run(Step(Run(s, events), e), []);
  }

  lemma StoresOneMore(s: System, events: seq<Event>, last: Event, m: Mailbox, e: Entry)
    ensures (exists i: nat :: Stores(s, events + [last], i, m, e))
            <==> (exists i: nat :: Stores(s, events, i, m, e)) || Stores(s, events + [last], |events|, m, e)
  {
    var more := events + [last];
    forall i: nat | i < |events| ensures Stores(s, more, i, m, e) <==> Stores(s, events, i, m, e) {
      assert more[..i] == events[..i] && more[i] == events[i];
    }
    if i: nat :| Stores(s, more, i, m, e) && i < |events| {
      assert Stores(s, events, i, m, e);
    }
    if i: nat :| Stores(s, events, i, m, e) {
      assert Stores(s, more, i, m, e);
    }
  }

  /** Over whole runs a mailbox holds exactly what it held at first and what was appended to it and not refused. */
  lemma {:induction false} BoxOverRun(s: System, events: seq<Event>, m: Mailbox, e: Entry)
    ensures e in Run(s, events).BoxOf(m) <==> e in s.BoxOf(m) || exists i: nat :: Stores(s, events, i, m, e)
    decreases |events|
  {
    if events != [] {
      var n := |events| - 1;
      var front, last := events[..n], events[n];
      assert events == front + [last] && (front + [last])[..n] == front;
      BoxOverRun(s, front, m, e);
      RunOneMore(s, front, last);
      StoresOneMore(s, front, last, m, e);
      if last.Append? {
        AppendStores(Run(s, front), last.mailbox, last.entry);
      } else {
        OtherStepsKeepBoxes(Run(s, front), last);
      }
    }
  }

  // ---------- Requests and consumption ----------

  lemma AskKeepsAccounts(s: System, r: nat)
    requires Accounted(s)
    ensures Accounted(DoAsk(s, r))
  {
    var s' := DoAsk(s, r);
    if s' != s {
      var q := s'.pending[|s.pending|];
      assert s'.pending == s.pending + [q];
      assert Ids(s'.pending) == Ids(s.pending) + {s.nextId};
      assert s.nextId !in Ids(s.pending) && s.nextId !in s.settled;
      forall i, j | 0 <= i < j < |s'.pending| ensures s'.pending[i].id != s'.pending[j].id {
        assert s'.pending[i].id in Ids(s.pending);
      }
    }
  }

  lemma AskKeepsRequests(s: System, r: nat)
    requires Accounted(s) && RequestsMatch(s)
    ensures RequestsMatch(DoAsk(s, r))
  {
    var s' := DoAsk(s, r);
    forall p | p in s'.pending ensures p.reader in s'.readers && Matches(p, s'.readers[p.reader]) {
      if p in s.pending {
        assert p.id in Ids(s.pending);
        assert Matches(p, s.readers[p.reader]);
      }
    }
  }

  lemma AskKeepsWaiters(s: System, r: nat)
    requires WaitersPending(s)
    ensures WaitersPending(DoAsk(s, r))
  {
    var s' := DoAsk(s, r);
    forall t | t in s'.readers && s'.readers[t].phase.Waiting?
      ensures exists p :: p in s'.pending && p.reader == t && p.id == s'.readers[t].phase.id
    {
      if t in s.readers && s'.readers[t] == s.readers[t] {
        var p :| p in s.pending && p.reader == t && p.id == s.readers[t].phase.id;
        assert p in s'.pending;
      } else {
        assert s'.pending[|s.pending|] in s'.pending;
      }
    }
  }

  lemma AskKeepsReaders(s: System, r: nat)
    requires ReadersInOrder(s)
    ensures ReadersInOrder(DoAsk(s, r))
  {
    var s' := DoAsk(s, r);
    forall t | t in s'.readers ensures InOrder(s'.BoxOf(s'.readers[t].mailbox), s'.readers[t]) {
      assert InOrder(s.BoxOf(s.readers[t].mailbox), s.readers[t]);
    }
  }

  lemma AskKeepsSane(s: System, r: nat)
    requires Sane(s)
    ensures Sane(DoAsk(s, r))
  {
    AskKeepsAccounts(s, r);
    AskKeepsRequests(s, r);
    AskKeepsWaiters(s, r);
    AskKeepsReaders(s, r);
  }

  /** Consuming an answer hands the reader the next entry it has not had. */
  lemma ConsumeKeepsOrder(box: Box, reader: Reader)
    requires Increasing(box) && InOrder(box, reader) && reader.phase.Holding?
    ensures InOrder(box, Consumed(reader))
  {
    var newer, k := Newer(box, reader.start), |reader.received|;
    FirstOfNewer(box, reader.cursor, reader.cursor);
    if k > 0 {
      CursorContinues(box, reader.start, k - 1);
      assert reader.received[k - 1] == newer[k - 1];
    }
    assert Newer(box, reader.cursor) == newer[k..];
    assert newer[k] == reader.phase.entry;
  }

  /** A change of one reader that keeps its mailbox and token, ends any wait and leaves it in order. */
  ghost predicate Quiet(s: System, r: nat, reader: Reader) {
    && r in s.readers && reader.mailbox == s.readers[r].mailbox && reader.token == s.readers[r].token
    && !reader.phase.Waiting? && InOrder(s.BoxOf(reader.mailbox), reader)
  }

  lemma SetReaderKeepsWaiters(s: System, r: nat, reader: Reader)
    requires WaitersPending(s) && Quiet(s, r, reader)
    ensures WaitersPending(SetReader(s, r, reader))
  {
    var s' := SetReader(s, r, reader);
    forall t | t in s'.readers && s'.readers[t].phase.Waiting?
      ensures exists p :: p in s'.pending && p.reader == t && p.id == s'.readers[t].phase.id
    {
      var p :| p in s.pending && p.reader == t && p.id == s.readers[t].phase.id;
      assert p in s'.pending;
    }
  }

  lemma SetReaderKeepsRequests(s: System, r: nat, reader: Reader)
    requires RequestsMatch(s) && Quiet(s, r, reader)
    ensures RequestsMatch(SetReader(s, r, reader))
  {
    var s' := SetReader(s, r, reader);
    forall q | q in s'.pending ensures q.reader in s'.readers && Matches(q, s'.readers[q.reader]) {
      assert Matches(q, s.readers[q.reader]);
    }
  }

  lemma SetReaderKeepsOrder(s: System, r: nat, reader: Reader)
    requires ReadersInOrder(s) && Quiet(s, r, reader)
    ensures ReadersInOrder(SetReader(s, r, reader))
  {
    var s' := SetReader(s, r, reader);
    forall t | t in s'.readers ensures InOrder(s'.BoxOf(s'.readers[t].mailbox), s'.readers[t]) {
      assert t != r ==> InOrder(s.BoxOf(s.readers[t].mailbox), s.readers[t]);
    }
  }

  lemma SetReaderKeepsReply(s: System, r: nat, reader: Reader)
    requires ReplyStands(s)
    ensures ReplyStands(SetReader(s, r, reader))
  {
  }

  lemma SetReaderKeepsSane(s: System, r: nat, reader: Reader)
    requires Sane(s) && Quiet(s, r, reader)
    ensures Sane(SetReader(s, r, reader))
  {
    SetReaderKeepsWaiters(s, r, reader);
    SetReaderKeepsRequests(s, r, reader);
    SetReaderKeepsOrder(s, r, reader);
    SetReaderKeepsReply(s, r, reader);
  }

  lemma AbandonKeepsSane(s: System, r: nat)
    requires Sane(s)
    ensures Sane(DoAbandon(s, r))
  {
    if r in s.readers {
      assert InOrder(s.BoxOf(s.readers[r].mailbox), s.readers[r]);
      SetReaderKeepsSane(s, r, s.readers[r].(phase := Idle));
    }
  }

  lemma ConsumeKeepsSane(s: System, r: nat)
    requires Sane(s)
    ensures Sane(DoConsume(s, r))
  {
    if r in s.readers && s.readers[r].phase.Holding? {
      var reader := s.readers[r];
      assert InOrder(s.BoxOf(reader.mailbox), reader);
      ConsumeKeepsOrder(s.BoxOf(reader.mailbox), reader);
      SetReaderKeepsSane(s, r, Consumed(reader));
    }
  }

  // ---------- Polls ----------

  lemma StartPollKeepsSane(s: System)
    requires Sane(s)
    ensures Sane(DoStartPoll(s))
  {
    PollCovers(s.pending);
    assert ReadersInOrder(DoStartPoll(s));
    assert DoStartPoll(s) == s || DoStartPoll(s).reply.None?;
  }

  lemma ServeKeepsSane(s: System, key: Key)
    requires Sane(s)
    ensures Sane(DoServe(s, key))
  {
    ServeKeepsReaders(s, key);
    ServeKeepsReply(s, key);
  }

  lemma ServeKeepsReaders(s: System, key: Key)
    requires ReadersInOrder(s)
    ensures ReadersInOrder(DoServe(s, key))
  {
  }

  lemma ServeKeepsReply(s: System, key: Key)
    requires ReplyStands(s)
    ensures ReplyStands(DoServe(s, key))
  {
  }

  lemma DropKeepsSane(s: System)
    requires Sane(s)
    ensures Sane(NoPoll(s))
  {
    assert ReadersInOrder(NoPoll(s));
  }

  lemma {:induction false} AnswerForIs(response: Response, pending: seq<Request>, q: Request)
    requires DistinctIds(pending) && q in pending
    ensures AnswerFor(Answers(response, pending), q.id) == Found(response, q)
  {
    assert pending == [pending[0]] + pending[1..];
    AnswersTail(response, pending);
    if q == pending[0] {
      NoAnswerFor(response, pending[1..], q.id);
    } else {
      var i :| 0 <= i < |pending| && pending[i] == q;
      assert pending[0].id != q.id && q == pending[1..][i - 1];
      AnswerForIs(response, pending[1..], q);
    }
  }

  lemma AnswersTail(response: Response, pending: seq<Request>)
    requires pending != []
    ensures var all, rest := Answers(response, pending), Answers(response, pending[1..]);
            if Found(response, pending[0]).Some?
            then all != [] && all[0] == Answer(pending[0], Found(response, pending[0]).value) && all[1..] == rest
            else all == rest
  {
  }

  lemma {:induction false} NoAnswerFor(response: Response, pending: seq<Request>, id: nat)
    requires forall i | 0 <= i < |pending| :: pending[i].id != id
    ensures AnswerFor(Answers(response, pending), id) == None
  {
    if pending != [] {
      AnswersTail(response, pending);
      NoAnswerFor(response, pending[1..], id);
    }
  }

  lemma {:induction false} StillPendingDistinct(response: Response, pending: seq<Request>)
    requires DistinctIds(pending)
    ensures DistinctIds(StillPending(response, pending))
  {
    if pending != [] {
      StillPendingDistinct(response, pending[1..]);
      AnswersAre(response, pending[1..]);
      forall q | q in pending[1..] ensures q.id != pending[0].id {
        var i :| 0 <= i < |pending[1..]| && pending[1..][i] == q;
        assert pending[i + 1] == q;
      }
    }
  }

  lemma {:induction false} SameId(pending: seq<Request>, p: Request, q: Request)
    requires DistinctIds(pending) && p in pending && q in pending && p.id == q.id
    ensures p == q
  {
    var i :| 0 <= i < |pending| && pending[i] == p;
    var j :| 0 <= j < |pending| && pending[j] == q;
    assert i == j;
  }

  /** The state after a response in which the poll's indices play no part. */
  function Responded(s: System, response: Response): System {
    Settle(s, Answers(response, s.pending), StillPending(response, s.pending))
  }

  /** In every sane state they play none: each response is handled for all pending requests of its mailbox. */
  lemma RespondIsResponded(s: System)
    requires PollMatches(s) && s.poll.Some? && s.reply.Some?
    ensures DoRespond(s) == Responded(s, ResponseOf(s.reply.value))
  {
    ListedAreAnswered(ResponseOf(s.reply.value), s.poll.value, s.pending, 0);
    assert s.pending[0..] == s.pending;
  }

  lemma RespondKeepsAccounts(s: System, response: Response)
    requires Accounted(s)
    ensures Accounted(Responded(s, response))
  {
    var s' := Responded(s, response);
    var answers := Answers(response, s.pending);
    AnswersAre(response, s.pending);
    StillPendingDistinct(response, s.pending);
    var gone := set a | a in answers :: a.request.id;
    forall id ensures id in Ids(s.pending) <==> id in Ids(s'.pending) || id in gone {
      if id in Ids(s.pending) {
        var q :| q in s.pending && q.id == id;
        if Found(response, q).Some? {
          assert Answer(q, Found(response, q).value) in answers;
        } else {
          assert q in s'.pending;
        }
      }
    }
    forall q, a | q in s'.pending && a in answers ensures q.id != a.request.id {
      if q.id == a.request.id {
        SameId(s.pending, q, a.request);
      }
    }
    assert Ids(s'.pending) !! gone;
  }

  /** The request a waiting reader waits for. */
  lemma WaitersRequest(s: System, r: nat) returns (q: Request)
    requires WaitersPending(s) && RequestsMatch(s) && r in s.readers && s.readers[r].phase.Waiting?
    ensures q in s.pending && q.reader == r && s.readers[r].phase == Waiting(q.id) && Matches(q, s.readers[r])
  {
    q :| q in s.pending && q.reader == r && q.id == s.readers[r].phase.id;
  }

  /** Request `q` is what its reader waits for. */
  predicate Awaited(s: System, q: Request) {
    q in s.pending && q.reader in s.readers && s.readers[q.reader].phase == Waiting(q.id)
  }

  /** A response turns the reader of an awaited request into a holding one exactly when it has an entry for it. */
  lemma RespondedReader(s: System, response: Response, q: Request)
    requires Accounted(s) && Awaited(s, q)
    ensures var reader, found := s.readers[q.reader], Found(response, q);
            Responded(s, response).readers[q.reader]
            == if found.Some? then reader.(phase := Holding(found.value)) else reader
  {
    AnswerForIs(response, s.pending, q);
  }

  lemma RespondKeepsWaiters(s: System, response: Response)
    requires Sane(s)
    ensures WaitersPending(Responded(s, response))
  {
    var s' := Responded(s, response);
    AnswersAre(response, s.pending);
    forall r | r in s'.readers && s'.readers[r].phase.Waiting?
      ensures exists q :: q in s'.pending && q.reader == r && q.id == s'.readers[r].phase.id
    {
      var q := WaitersRequest(s, r);
      RespondedReader(s, response, q);
      assert q in s'.pending;
    }
  }

  lemma RespondKeepsRequests(s: System, response: Response)
    requires RequestsMatch(s)
    ensures RequestsMatch(Responded(s, response))
  {
    var answers := Answers(response, s.pending);
    AnswersAre(response, s.pending);
    forall q | q in StillPending(response, s.pending)
      ensures q.reader in s.readers && Matches(q, Deliver(s.readers[q.reader], answers))
    {
      assert q in s.pending && Matches(q, s.readers[q.reader]);
    }
  }

  /** The reply has an entry for the awaited `q`, but the mailbox holds one that `q` has not had and the poll's
      cursor has passed. */
  ghost predicate Skips(s: System, q: Request) {
    && s.poll.Some? && s.reply.Some? && s.reply.value.key in s.poll.value.args
    && Awaited(s, q) && Found(ResponseOf(s.reply.value), q).Some?
    && !NothingBetween(s.BoxOf(q.mailbox), q.after, s.poll.value.args[s.reply.value.key])
  }

  ghost predicate SkipsNobody(s: System) {
    forall q | q in s.pending :: !Skips(s, q)
  }

  lemma AnsweredInOrderIff(s: System, q: Request)
    requires Sane(s) && s.reply.Some? && Awaited(s, q) && Found(ResponseOf(s.reply.value), q).Some?
    ensures var found := Found(ResponseOf(s.reply.value), q).value;
            InOrder(s.BoxOf(q.mailbox), s.readers[q.reader].(phase := Holding(found))) <==> !Skips(s, q)
  {
    var reader, key := s.readers[q.reader], s.reply.value.key;
    assert Matches(q, reader) && InOrder(s.BoxOf(reader.mailbox), reader);
    AnswerIsNextIff(s.BoxOf(q.mailbox), s.reply.value.page, s.poll.value.args[key], q.after);
  }

  lemma AwaitedInOrderIff(s: System, q: Request)
    requires Sane(s) && s.reply.Some? && Awaited(s, q)
    ensures var s' := Responded(s, ResponseOf(s.reply.value));
            InOrder(s'.BoxOf(s'.readers[q.reader].mailbox), s'.readers[q.reader]) <==> !Skips(s, q)
  {
    var response, reader := ResponseOf(s.reply.value), s.readers[q.reader];
    RespondedReader(s, response, q);
    assert Matches(q, reader) && InOrder(s.BoxOf(reader.mailbox), reader);
    if Found(response, q).Some? {
      AnsweredInOrderIff(s, q);
    }
  }

  /** Readers that do not wait are left as they are. */
  lemma OthersInOrder(s: System, response: Response, r: nat)
    requires ReadersInOrder(s) && r in s.readers && !s.readers[r].phase.Waiting?
    ensures var s' := Responded(s, response);
            InOrder(s'.BoxOf(s'.readers[r].mailbox), s'.readers[r])
  {
  }

  /** The exact condition: a response leaves every reader in order if and only if it skips nobody. */
  lemma RespondInOrderIff(s: System)
    requires Sane(s) && s.reply.Some?
    ensures ReadersInOrder(DoRespond(s)) <==> SkipsNobody(s)
  {
    var response := ResponseOf(s.reply.value);
    RespondIsResponded(s);
    if SkipsNobody(s) {
      forall r | r in s.readers
        ensures var s' := Responded(s, response); InOrder(s'.BoxOf(s'.readers[r].mailbox), s'.readers[r])
      {
        if s.readers[r].phase.Waiting? {
          var q := WaitersRequest(s, r);
          AwaitedInOrderIff(s, q);
        } else {
          OthersInOrder(s, response, r);
        }
      }
    } else {
      var q :| q in s.pending && Skips(s, q);
      AwaitedInOrderIff(s, q);
    }
  }

  /** Every reply handled answers somebody. */
  lemma RespondShrinks(s: System)
    requires PollMatches(s) && ReplyStands(s) && s.reply.Some?
    ensures |DoRespond(s).pending| < |s.pending|
  {
    var key, page := s.reply.value.key, s.reply.value.page;
    var box, low := s.BoxOf(key.0), s.poll.value.args[key];
    NewerFilters(box, low);
    assert page[0] == Newer(box, low)[0] && page[0] in Newer(box, low);
    NonEmptyResponseShrinks(s.pending, s.poll.value, key, page);
  }

  lemma RespondKeepsRest(s: System)
    requires Sane(s) && s.reply.Some?
    ensures Sane(DoRespond(s)) <==> ReadersInOrder(DoRespond(s))
  {
    var response := ResponseOf(s.reply.value);
    RespondIsResponded(s);
    RespondKeepsAccounts(s, response);
    RespondKeepsWaiters(s, response);
    RespondKeepsRequests(s, response);
  }

  lemma FailKeepsAccounts(s: System)
    requires Accounted(s)
    ensures Accounted(DoFail(s))
  {
    assert Ids([]) == {};
  }

  lemma FailKeepsSane(s: System)
    requires Sane(s)
    ensures Sane(DoFail(s))
  {
    FailKeepsAccounts(s);
    FailKeepsReaders(s);
  }

  lemma FailKeepsReaders(s: System)
    requires ReadersInOrder(s)
    ensures ReadersInOrder(DoFail(s))
  {
    var s' := DoFail(s);
    forall r | r in s'.readers ensures InOrder(s'.BoxOf(s'.readers[r].mailbox), s'.readers[r]) {
      assert InOrder(s.BoxOf(s.readers[r].mailbox), s.readers[r]);
    }
  }

  // ---------- Whole runs ----------

  /** The step is no append that disturbs a reader or a reply and no response that skips anybody. */
  ghost predicate Harmless(s: System, e: Event) {
    && (e.Append? ==> DisturbsNobody(s, e.mailbox, e.entry))
    && (e.Respond? ==> SkipsNobody(s))
  }

  lemma RespondSaneIff(s: System)
    requires Sane(s)
    ensures Sane(DoRespond(s)) <==> SkipsNobody(s)
  {
    if s.reply.Some? {
      RespondInOrderIff(s);
      RespondKeepsRest(s);
    } else {
      assert DoRespond(s) == s;
    }
  }

  /** One step, whatever the tokens and the times: everything is kept if and only if the step is harmless. */
  lemma StepSaneIff(s: System, e: Event)
    requires Sane(s)
    ensures Sane(Step(s, e)) <==> Harmless(s, e)
  {
    match e {
      case Append(m, entry) => AppendSaneIff(s, m, entry);
      case Ask(r) => AskKeepsSane(s, r);
      case Abandon(r) => AbandonKeepsSane(s, r);
      case Consume(r) => ConsumeKeepsSane(s, r);
      case StartPoll => StartPollKeepsSane(s);
      case Serve(key) => ServeKeepsSane(s, key);
      case Respond => RespondSaneIff(s);
      case Drop => DropKeepsSane(s);
      case Fail => FailKeepsSane(s);
    }
  }

  ghost predicate SaneThroughout(s: System, events: seq<Event>)
    decreases events
  {
    Sane(s) && (events != [] ==> SaneThroughout(Step(s, events[0]), events[1..]))
  }

  ghost predicate AllHarmless(s: System, events: seq<Event>)
    decreases events
  {
    events != [] ==> Harmless(s, events[0]) && AllHarmless(Step(s, events[0]), events[1..])
  }

  /** Over whole runs, whatever the tokens and the times: everything is kept at every step if and only if every step
      is harmless. */
  lemma {:induction false} SaneThroughoutIff(s: System, events: seq<Event>)
    requires Sane(s)
    ensures SaneThroughout(s, events) <==> AllHarmless(s, events)
    decreases events
  {
    if events != [] {
      StepSaneIff(s, events[0]);
      if Sane(Step(s, events[0])) {
        SaneThroughoutIff(Step(s, events[0]), events[1..]);
      }
    }
  }

  lemma {:induction false} SaneAtTheEnd(s: System, events: seq<Event>)
    requires SaneThroughout(s, events)
    ensures Sane(Run(s, events))
    decreases events
  {
    if events != [] {
      SaneAtTheEnd(Step(s, events[0]), events[1..]);
    }
  }

  /** Holds in every reachable state, provided the readers of one mailbox share one token. */
  ghost predicate Good(s: System) {
    Sane(s) && OneToken(s.readers)
  }

  /** Then a mailbox has one argument in the poll, and its cursor is at most that of each request. */
  lemma OneTokenOneCursor(s: System, key: Key, q: Request)
    requires Good(s) && s.poll.Some? && key in s.poll.value.args && q in s.pending && q.mailbox == key.0
    ensures s.poll.value.args[key] <= q.after
  {
    var p := CursorAttained(s.pending, s.poll.value, key);
    assert Matches(p, s.readers[p.reader]) && Matches(q, s.readers[q.reader]);
    CursorBelow(s.pending, s.poll.value, q);
  }

  lemma OneTokenSkipsNobody(s: System)
    requires Good(s)
    ensures SkipsNobody(s)
  {
    forall q | q in s.pending ensures !Skips(s, q) {
      if Skips(s, q) {
        OneTokenOneCursor(s, s.reply.value.key, q);
      }
    }
  }

  /** No step adds a reader or changes the mailbox or the token of one. */
  ghost predicate SameReaders(before: map<nat, Reader>, after: map<nat, Reader>) {
    forall r | r in after ::
      r in before && after[r].mailbox == before[r].mailbox && after[r].token == before[r].token
  }

  lemma StepKeepsReaders(s: System, e: Event)
    ensures SameReaders(s.readers, Step(s, e).readers)
  {
  }

  lemma StepKeepsTokens(s: System, e: Event)
    requires OneToken(s.readers)
    ensures OneToken(Step(s, e).readers)
  {
    StepKeepsReaders(s, e);
    SameReadersSameTokens(s.readers, Step(s, e).readers);
  }

  lemma SameReadersSameTokens(before: map<nat, Reader>, after: map<nat, Reader>)
    requires OneToken(before) && SameReaders(before, after)
    ensures OneToken(after)
  {
  }

  /** With one token a mailbox, a step keeps everything if and only if it is no append that disturbs anybody. */
  lemma StepKeepsGood(s: System, e: Event)
    requires Good(s)
    ensures Good(Step(s, e)) <==> (e.Append? ==> DisturbsNobody(s, e.mailbox, e.entry))
  {
    StepSaneIff(s, e);
    OneTokenSkipsNobody(s);
    StepKeepsTokens(s, e);
  }

  ghost predicate NoLateArrivals(s: System, events: seq<Event>)
    decreases events
  {
    events != [] ==>
      && (events[0].Append? ==> DisturbsNobody(s, events[0].mailbox, events[0].entry))
      && NoLateArrivals(Step(s, events[0]), events[1..])
  }

  /** Over whole runs with one token a mailbox: every reader has at every point received the entries beyond its start
      cursor in order, with no gap and no repeat, every poll matches the pending requests, every reply is the start of
      what is newer, and every request is pending or settled once, if and only if no late arrival disturbs anybody. */
  lemma {:induction false} OneTokenRunIff(s: System, events: seq<Event>)
    requires Good(s)
    ensures SaneThroughout(s, events) <==> NoLateArrivals(s, events)
    decreases events
  {
    if events != [] {
      StepKeepsGood(s, events[0]);
      StepKeepsTokens(s, events[0]);
      if Good(Step(s, events[0])) {
        OneTokenRunIff(Step(s, events[0]), events[1..]);
      }
    }
  }

  /** Entries arrive in each mailbox with increasing times. */
  ghost predicate Orderly(s: System, events: seq<Event>)
    decreases events
  {
    events != [] ==>
      && (events[0].Append? ==> Latest(s.BoxOf(events[0].mailbox), events[0].entry))
      && Orderly(Step(s, events[0]), events[1..])
  }

  /** What a reader has taken or holds is its start or the time of an entry. */
  lemma ReachIsThere(box: Box, reader: Reader)
    requires InOrder(box, reader)
    ensures Reach(reader) == reader.start || exists b :: b in box && b.at == Reach(reader)
  {
    NewerFilters(box, reader.start);
    if reader.phase.Holding? {
      FirstOfNewer(box, reader.cursor, reader.cursor);
      NewerFilters(box, reader.cursor);
      assert reader.phase.entry in Newer(box, reader.cursor);
    } else if reader.received != [] {
      var last := |reader.received| - 1;
      assert reader.received[last] == Newer(box, reader.start)[last];
      assert reader.received[last] in Newer(box, reader.start);
    }
  }

  /** An entry later than all others disturbs nobody. */
  lemma LatestDisturbsNobody(s: System, m: Mailbox, e: Entry)
    requires Sane(s) && Latest(s.BoxOf(m), e)
    ensures DisturbsNobody(s, m, e)
  {
    forall r | r in s.readers && s.readers[r].mailbox == m ensures !Behind(s, m, e, r) {
      assert InOrder(s.BoxOf(s.readers[r].mailbox), s.readers[r]);
      ReachIsThere(s.BoxOf(m), s.readers[r]);
    }
    if s.reply.Some? && s.reply.value.key.0 == m {
      var page, low := s.reply.value.page, s.poll.value.args[s.reply.value.key];
      LastIsNewer(s.BoxOf(m), page, low);
    }
  }

  lemma {:induction false} OrderlyIsNeverLate(s: System, events: seq<Event>)
    requires Good(s) && Orderly(s, events)
    ensures NoLateArrivals(s, events)
    decreases events
  {
    if events != [] {
      var e := events[0];
      if e.Append? {
        LatestDisturbsNobody(s, e.mailbox, e.entry);
      }
      StepKeepsGood(s, e);
      OrderlyIsNeverLate(Step(s, e), events[1..]);
    }
  }

  lemma {:induction false} RunKeepsTokens(s: System, events: seq<Event>)
    requires OneToken(s.readers)
    ensures OneToken(Run(s, events).readers)
    decreases events
  {
    if events != [] {
      StepKeepsTokens(s, events[0]);
      RunKeepsTokens(Step(s, events[0]), events[1..]);
    }
  }

  /** So with entries that arrive in order of time everything is kept over whole runs. */
  lemma RunKeepsGood(s: System, events: seq<Event>)
    requires Good(s) && Orderly(s, events)
    ensures Good(Run(s, events))
  {
    OrderlyIsNeverLate(s, events);
    OneTokenRunIff(s, events);
    SaneAtTheEnd(s, events);
    RunKeepsTokens(s, events);
  }

  /** Boxes whose entries arrived in order and readers that have not begun, with any tokens. */
  ghost predicate Initial(s: System) {
    && BoxesIncrease(s) && s.pending == [] && s.poll == None && s.reply == None && s.nextId == 0 && s.settled == {}
    && forall r | r in s.readers ::
         s.readers[r].received == [] && s.readers[r].cursor == s.readers[r].start && s.readers[r].phase.Idle?
  }

  lemma InitialIsSane(s: System)
    requires Initial(s)
    ensures Sane(s)
  {
    assert Ids([]) == {};
  }

  /** The delivery guarantee from the start of a run. */
  lemma ReadersReceiveInOrder(s: System, events: seq<Event>, r: nat)
    requires Initial(s) && OneToken(s.readers) && Orderly(s, events) && r in Run(s, events).readers
    ensures var s' := Run(s, events); var reader := s'.readers[r];
            && reader.received <= Newer(s'.BoxOf(reader.mailbox), reader.start)
            && PollMatches(s') && Accounted(s')
  {
    InitialIsSane(s);
    RunKeepsGood(s, events);
    var s' := Run(s, events);
    assert InOrder(s'.BoxOf(s'.readers[r].mailbox), s'.readers[r]);
  }

  // ---------- Polls that end without an answer ----------

  /** An error leaves no request pending, no reader waiting and no poll in flight; what readers have and hold stays. */
  lemma FailReleasesAll(s: System)
    ensures var s' := Step(s, Fail);
            && s'.pending == [] && s'.poll == None && s'.reply == None && s'.boxes == s.boxes
            && (forall q | q in s.pending :: q.id in s'.settled) && s.settled <= s'.settled
            && s'.readers.Keys == s.readers.Keys
            && forall r | r in s.readers ::
                 s'.readers[r] == if s.readers[r].phase.Waiting? then s.readers[r].(phase := Idle) else s.readers[r]
  {
    forall q | q in s.pending ensures q.id in Ids(s.pending) {
    }
  }

  /** A poll that times out or loses its connection leaves everything but itself, so that it can be started again. */
  lemma DroppedPollRestarts(s: System)
    requires s.pending != []
    ensures var s' := Step(Step(s, Drop), StartPoll);
            s' == s.(poll := s'.poll, reply := None) && s'.poll.Some? && Covering(s.pending, s'.poll.value)
  {
    PollCovers(s.pending);
  }

  /** A reader that gives up keeps what it has and may ask again from the same cursor. */
  lemma AbandonKeepsReader(s: System, r: nat)
    requires r in s.readers
    ensures Step(s, Abandon(r)) == s.(readers := s.readers[r := s.readers[r].(phase := Idle)])
  {
  }

  // ---------- Progress ----------

  /** One round of a reader: it asks, and is polled for, served, answered, and consumes. */
  function Round(key: Key, r: nat): seq<Event> {
    [Ask(r), StartPoll, Serve(key)] + [Respond, Consume(r)]
  }

  /** The reader is idle, an entry is past its cursor, and nobody waits at an earlier cursor under its token. */
  ghost predicate Ready(s: System, r: nat) {
    && r in s.readers && s.readers[r].phase.Idle?
    && FirstAfter(s.BoxOf(s.readers[r].mailbox), s.readers[r].cursor).Some?
    && forall q | q in s.pending && q.Key() == KeyOf(s, r) :: q.after >= s.readers[r].cursor
  }

  lemma AskedIs(s: System, r: nat)
    requires r in s.readers && s.readers[r].phase.Idle?
    ensures var q := RequestOf(s.readers[r], r, s.nextId); var s' := DoStartPoll(DoAsk(s, r));
            && s'.pending == s.pending + [q] && s'.poll == Some(PollFor(s.pending + [q])) && s'.reply == None
            && s'.boxes == s.boxes && s'.readers == s.readers[r := s.readers[r].(phase := Waiting(s.nextId))]
  {
  }

  lemma LeastOfItsKey(pending: seq<Request>, q: Request)
    requires q in pending && forall p | p in pending && p.Key() == q.Key() :: p.after >= q.after
    ensures q.Key() in PollFor(pending).args && PollFor(pending).args[q.Key()] == q.after
  {
    PollCovers(pending);
    CursorBelow(pending, PollFor(pending), q);
    var p := CursorAttained(pending, PollFor(pending), q.Key());
  }

  lemma RoundServed(s: System, r: nat)
    requires Ready(s, r)
    ensures var served := DoServe(DoStartPoll(DoAsk(s, r)), KeyOf(s, r));
            var box, q := s.BoxOf(s.readers[r].mailbox), RequestOf(s.readers[r], r, s.nextId);
            && served.pending == s.pending + [q] && served.poll == Some(PollFor(served.pending))
            && served.reply == Some(Reply(KeyOf(s, r), Page(box, q.after))) && served.boxes == s.boxes
            && served.readers == s.readers[r := s.readers[r].(phase := Waiting(s.nextId))]
            && Found(ResponseOf(served.reply.value), q) == FirstAfter(box, q.after)
  {
    var q := RequestOf(s.readers[r], r, s.nextId);
    AskedIs(s, r);
    LeastOfItsKey(s.pending + [q], q);
    FirstOfPage(s.BoxOf(q.mailbox), q.after);
  }

  /** Such a reader has one entry more after its round: the next one past its cursor. */
  lemma RoundDelivers(s: System, r: nat)
    requires Sane(s) && Ready(s, r)
    ensures var s' := Run(s, Round(KeyOf(s, r), r));
            var next := FirstAfter(s.BoxOf(s.readers[r].mailbox), s.readers[r].cursor).value;
            && r in s'.readers && s'.boxes == s.boxes && s'.readers[r].phase.Idle?
            && s'.readers[r].received == s.readers[r].received + [next] && s'.readers[r].cursor == next.at
            && s'.readers[r].mailbox == s.readers[r].mailbox && s'.readers[r].token == s.readers[r].token
  {
    var key := KeyOf(s, r);
    var served := DoServe(DoStartPoll(DoAsk(s, r)), key);
    RoundRun(s, key, r);
    RoundServed(s, r);
    AskKeepsAccounts(s, r);
    PollCovers(served.pending);
    RespondIsResponded(served);
    WaiterAnswered(served, r, served.pending[|s.pending|]);
    RespondKeepsBoxes(served, r);
  }

  /** No request waits under the reader's mailbox and token. */
  predicate Alone(s: System, r: nat)
    requires r in s.readers
  {
    forall q | q in s.pending :: q.Key() != KeyOf(s, r)
  }

  /** A round answers its own request, so it leaves none behind. */
  lemma RoundLeavesAlone(s: System, r: nat)
    requires Sane(s) && Ready(s, r) && Alone(s, r)
    ensures var s' := Run(s, Round(KeyOf(s, r), r)); r in s'.readers && Alone(s', r)
  {
    var key := KeyOf(s, r);
    var served := DoServe(DoStartPoll(DoAsk(s, r)), key);
    RoundDelivers(s, r);
    RoundRun(s, key, r);
    RoundServed(s, r);
    PollCovers(served.pending);
    RespondIsResponded(served);
    assert s.readers[r].token == RequestOf(s.readers[r], r, s.nextId).token;
    AloneAfter(s, r, served);
  }

  lemma AloneAfter(s: System, r: nat, served: System)
    requires r in s.readers && Alone(s, r) && served.reply.Some?
    requires var q := RequestOf(s.readers[r], r, s.nextId);
             served.pending == s.pending + [q] && Found(ResponseOf(served.reply.value), q).Some?
    ensures forall q | q in Responded(served, ResponseOf(served.reply.value)).pending :: q.Key() != KeyOf(s, r)
  {
    AnswersAre(ResponseOf(served.reply.value), served.pending);
  }

  lemma RoundIsOrderly(s: System, key: Key, r: nat)
    ensures Orderly(s, Round(key, r))
  {
    NoAppendsOrderly(s, Round(key, r));
  }

  lemma {:induction false} NoAppendsOrderly(s: System, events: seq<Event>)
    requires forall e | e in events :: !e.Append?
    ensures Orderly(s, events)
    decreases events
  {
    if events != [] {
      assert events[0] in events && forall e | e in events[1..] :: e in events;
      NoAppendsOrderly(Step(s, events[0]), events[1..]);
    }
  }

  function Rounds(key: Key, r: nat, n: nat): seq<Event> {
    if n == 0 then [] else Round(key, r) + Rounds(key, r, n - 1)
  }

  /** A round moves a reader one entry on and leaves everything ready for the next. */
  lemma RoundAdvances(s: System, r: nat)
    requires Good(s) && Ready(s, r) && Alone(s, r)
    ensures var s' := Run(s, Round(KeyOf(s, r), r));
            var newer := Newer(s.BoxOf(s.readers[r].mailbox), s.readers[r].cursor);
            && newer != [] && r in s'.readers && KeyOf(s', r) == KeyOf(s, r)
            && s'.readers[r].received == s.readers[r].received + [newer[0]]
            && Newer(s'.BoxOf(s'.readers[r].mailbox), s'.readers[r].cursor) == newer[1..]
  {
    var box, cursor := s.BoxOf(s.readers[r].mailbox), s.readers[r].cursor;
    RoundDelivers(s, r);
    FirstOfNewer(box, cursor, cursor);
    BoxIncreases(s, s.readers[r].mailbox);
    CursorContinues(box, cursor, 0);
  }

  lemma RoundKeepsReady(s: System, r: nat)
    requires Good(s) && Ready(s, r) && Alone(s, r)
    ensures var s' := Run(s, Round(KeyOf(s, r), r));
            Good(s') && r in s'.readers && s'.readers[r].phase.Idle? && Alone(s', r)
  {
    RoundDelivers(s, r);
    RoundLeavesAlone(s, r);
    RoundIsOrderly(s, KeyOf(s, r), r);
    RunKeepsGood(s, Round(KeyOf(s, r), r));
  }

  /** A reader that goes round after round receives all there is past its cursor, one entry a round. */
  lemma {:induction false} ReaderDrains(s: System, r: nat, n: nat)
    requires Good(s) && r in s.readers && s.readers[r].phase.Idle? && Alone(s, r)
    requires n <= |Newer(s.BoxOf(s.readers[r].mailbox), s.readers[r].cursor)|
    ensures var s' := Run(s, Rounds(KeyOf(s, r), r, n));
            && r in s'.readers
            && s'.readers[r].received
               == s.readers[r].received + Newer(s.BoxOf(s.readers[r].mailbox), s.readers[r].cursor)[..n]
    decreases n
  {
    var key, newer := KeyOf(s, r), Newer(s.BoxOf(s.readers[r].mailbox), s.readers[r].cursor);
    if n == 0 {
      assert s.readers[r].received + newer[..0] == s.readers[r].received;
    } else {
      NextOfNewer(s.BoxOf(s.readers[r].mailbox), s.readers[r].cursor);
      RoundAdvances(s, r);
      RoundKeepsReady(s, r);
      ReaderDrains(Run(s, Round(key, r)), r, n - 1);
      RunJoin(s, Round(key, r), Rounds(key, r, n - 1));
      TakeOneMore(s.readers[r].received, newer, n);
    }
  }

  lemma TakeOneMore(received: Box, newer: Box, n: nat)
    requires 0 < n <= |newer|
    ensures received + newer[..n] == (received + [newer[0]]) + newer[1..][..n - 1]
  {
    assert newer[..n] == [newer[0]] + newer[1..][..n - 1];
  }

  /** From sender to receiver: an entry later than all others is stored, and a reader whose cursor is before it, once
      it has gone as many rounds as there are entries past its cursor, has received it. */
  lemma SentIsReceived(s: System, r: nat, e: Entry)
    requires Good(s) && r in s.readers && s.readers[r].phase.Idle? && Alone(s, r)
    requires s.readers[r].cursor < e.at && forall b | b in s.BoxOf(s.readers[r].mailbox) :: b.at < e.at
    ensures var sent := Step(s, Append(s.readers[r].mailbox, e));
            var n := |Newer(sent.BoxOf(s.readers[r].mailbox), s.readers[r].cursor)|;
            var s' := Run(sent, Rounds(KeyOf(s, r), r, n));
            r in s'.readers && e in s'.readers[r].received
  {
    var m, cursor := s.readers[r].mailbox, s.readers[r].cursor;
    var sent := Step(s, Append(m, e));
    var newer := Newer(sent.BoxOf(m), cursor);
    LatestDisturbsNobody(s, m, e);
    StepKeepsGood(s, Append(m, e));
    AppendStores(s, m, e);
    NewerFilters(sent.BoxOf(m), cursor);
    ReaderDrains(sent, r, |newer|);
    assert newer[..|newer|] == newer && e in newer;
  }

  lemma NextOfNewer(box: Box, cursor: nat)
    requires Newer(box, cursor) != []
    ensures FirstAfter(box, cursor) == Some(Newer(box, cursor)[0])
  {
    FirstOfNewer(box, cursor, cursor);
  }

  lemma RoundRun(s: System, key: Key, r: nat)
    ensures Run(s, Round(key, r)) == DoConsume(DoRespond(DoServe(DoStartPoll(DoAsk(s, r)), key)), r)
  {
    var served := DoServe(DoStartPoll(DoAsk(s, r)), key);
    RunJoin(s, [Ask(r), StartPoll, Serve(key)], [Respond, Consume(r)]);
    RunThree(s, Ask(r), StartPoll, Serve(key));
    RunJoin(served, [Respond], [Consume(r)]);
    RunSingle(served, Respond);
    RunSingle(DoRespond(served), Consume(r));
    assert [Respond] + [Consume(r)] == [Respond, Consume(r)];
  }

  lemma RunSingle(s: System, e: Event)
    ensures Run(s, [e]) == Step(s, e)
  {
    assert Run(s, [e]) == Run(Step(s, e), []);
  }

  // ---------- Why the readers of a mailbox must share a token ----------

  /** Before anything happens, readers `a` and `b` of one mailbox have different tokens; the mailbox holds an entry
      that `a` has not had and `b` is past, and one that is new to both. */
  ghost predicate Rivals(s: System, a: nat, b: nat) {
    && Initial(s) && a in s.readers && b in s.readers
    && s.readers[a].mailbox == s.readers[b].mailbox && s.readers[a].token != s.readers[b].token
    && FirstAfter(s.BoxOf(s.readers[b].mailbox), s.readers[b].start).Some?
    && !NothingBetween(s.BoxOf(s.readers[a].mailbox), s.readers[a].start, s.readers[b].start)
  }

  function RequestOf(reader: Reader, r: nat, id: nat): Request {
    Request(id, r, reader.mailbox, reader.token, reader.cursor)
  }

  function KeyOf(s: System, r: nat): Key
    requires r in s.readers
  {
    (s.readers[r].mailbox, s.readers[r].token)
  }

  /** Both have asked and the worker has polled. */
  function Polled(s: System, a: nat, b: nat): System {
    DoStartPoll(DoAsk(DoAsk(s, a), b))
  }

  lemma PolledIs(s: System, a: nat, b: nat)
    requires Rivals(s, a, b)
    ensures var s' := Polled(s, a, b);
            && s'.pending == [RequestOf(s.readers[a], a, 0), RequestOf(s.readers[b], b, 1)]
            && s'.poll == Some(PollFor(s'.pending)) && s'.reply == None && s'.boxes == s.boxes
            && a in s'.readers && s'.readers[a] == s.readers[a].(phase := Waiting(0))
  {
    assert a != b;
    assert DoAsk(s, a).pending == [RequestOf(s.readers[a], a, 0)];
  }

  lemma RivalCursor(qa: Request, qb: Request)
    requires qa.Key() != qb.Key()
    ensures var poll := PollFor([qa, qb]);
            Covering([qa, qb], poll) && qb.Key() in poll.args && poll.args[qb.Key()] == qb.after
  {
    PollCovers([qa, qb]);
    CursorBelow([qa, qb], PollFor([qa, qb]), qb);
    var p := CursorAttained([qa, qb], PollFor([qa, qb]), qb.Key());
  }

  /** The reply to the rival's token has an entry for `a`: the first that is new to the rival. */
  lemma RivalServed(s: System, a: nat, b: nat)
    requires Rivals(s, a, b)
    ensures var s' := DoServe(Polled(s, a, b), KeyOf(s, b)); var box := s.BoxOf(s.readers[a].mailbox);
            && PollMatches(s') && s'.poll.Some? && s'.reply.Some? && s'.pending == Polled(s, a, b).pending
            && s'.readers == Polled(s, a, b).readers
            && Found(ResponseOf(s'.reply.value), s'.pending[0]) == FirstAfter(box, s.readers[b].start)
  {
    var qa, qb := RequestOf(s.readers[a], a, 0), RequestOf(s.readers[b], b, 1);
    var box, low := s.BoxOf(s.readers[a].mailbox), s.readers[b].start;
    PolledIs(s, a, b);
    RivalCursor(qa, qb);
    FirstOfPage(box, low);
    FirstPastBoth(box, low, s.readers[a].start);
  }

  lemma FirstPastBoth(box: Box, low: nat, after: nat)
    requires FirstAfter(box, low).Some? && after <= low
    ensures FirstAfter(Page(box, low), after) == FirstAfter(box, low)
  {
    FirstOfNewer(box, low, low);
    NewerFilters(box, low);
    assert Page(box, low)[0] == Newer(box, low)[0] && Newer(box, low)[0] in Newer(box, low);
  }

  lemma RivalAnswered(s: System, a: nat, b: nat)
    requires Rivals(s, a, b)
    ensures var s' := DoRespond(DoServe(Polled(s, a, b), KeyOf(s, b)));
            var first := FirstAfter(s.BoxOf(s.readers[a].mailbox), s.readers[b].start).value;
            a in s'.readers && s'.readers[a] == s.readers[a].(phase := Holding(first))
  {
    PolledIs(s, a, b);
    RivalServed(s, a, b);
    AnsweredWhenServed(DoServe(Polled(s, a, b), KeyOf(s, b)), a, RequestOf(s.readers[a], a, 0));
  }

  lemma AnsweredWhenServed(s: System, r: nat, q: Request)
    requires PollMatches(s) && s.poll.Some? && s.reply.Some? && r in s.readers
    requires DistinctIds(s.pending) && q in s.pending
    requires s.readers[r].phase == Waiting(q.id) && Found(ResponseOf(s.reply.value), q).Some?
    ensures var s' := DoRespond(s);
            && r in s'.readers
            && s'.readers[r] == s.readers[r].(phase := Holding(Found(ResponseOf(s.reply.value), q).value))
  {
    RespondIsResponded(s);
    WaiterAnswered(s, r, q);
  }

  /** The one that waits for the request gets what the reply has for it. */
  lemma WaiterAnswered(s: System, r: nat, q: Request)
    requires DistinctIds(s.pending) && q in s.pending && s.reply.Some? && r in s.readers
    requires s.readers[r].phase == Waiting(q.id) && Found(ResponseOf(s.reply.value), q).Some?
    ensures Responded(s, ResponseOf(s.reply.value)).readers[r]
            == s.readers[r].(phase := Holding(Found(ResponseOf(s.reply.value), q).value))
  {
    AnswerForIs(ResponseOf(s.reply.value), s.pending, q);
  }

  /** The schedule that loses an entry. */
  function GapEvents(s: System, a: nat, b: nat): seq<Event>
    requires b in s.readers
  {
    [Ask(a), Ask(b), StartPoll, Serve(KeyOf(s, b)), Respond, Consume(a)]
  }

  lemma {:induction false} RunJoin(s: System, events: seq<Event>, more: seq<Event>)
    ensures Run(s, events + more) == Run(Run(s, events), more)
    decreases |events|
  {
    if events == [] {
      assert events + more == more;
    } else {
      assert (events + more)[1..] == events[1..] + more;
      RunJoin(Step(s, events[0]), events[1..], more);
    }
  }

  lemma RunThree(s: System, x: Event, y: Event, z: Event)
    ensures Run(s, [x, y, z]) == Step(Step(Step(s, x), y), z)
  {
    assert [x, y, z][1..] == [y, z] && [y, z][1..] == [z] && [z][1..] == [];
    assert Run(Step(Step(s, x), y), [z]) == Run(Step(Step(Step(s, x), y), z), []);
  }

  lemma RunAsks(s: System, a: nat, b: nat)
    ensures Run(s, [Ask(a), Ask(b), StartPoll]) == Polled(s, a, b)
  {
    RunThree(s, Ask(a), Ask(b), StartPoll);
  }

  lemma RunAnswers(s: System, key: Key, a: nat)
    ensures Run(s, [Serve(key), Respond, Consume(a)]) == DoConsume(DoRespond(DoServe(s, key)), a)
  {
    RunThree(s, Serve(key), Respond, Consume(a));
  }

  lemma GapRun(s: System, a: nat, b: nat)
    requires b in s.readers
    ensures Run(s, GapEvents(s, a, b)) == DoConsume(DoRespond(DoServe(Polled(s, a, b), KeyOf(s, b))), a)
  {
    var asks, answers := [Ask(a), Ask(b), StartPoll], [Serve(KeyOf(s, b)), Respond, Consume(a)];
    assert GapEvents(s, a, b) == asks + answers;
    RunJoin(s, asks, answers);
    RunAsks(s, a, b);
    RunAnswers(Polled(s, a, b), KeyOf(s, b), a);
  }

  /** From every such state this run hands `a` the entry new to both first; its cursor is then past the entry it
      has not had, which it can never be handed. */
  lemma TwoTokensLeaveGap(s: System, a: nat, b: nat)
    requires Rivals(s, a, b)
    ensures var s' := Run(s, GapEvents(s, a, b)); var box := s.BoxOf(s.readers[a].mailbox);
            && a in s'.readers && s'.readers[a].received == [FirstAfter(box, s.readers[b].start).value]
            && exists e :: e in Newer(box, s.readers[a].start) && e !in s'.readers[a].received
                && e.at <= s'.readers[a].cursor
  {
    var box, start, low := s.BoxOf(s.readers[a].mailbox), s.readers[a].start, s.readers[b].start;
    GapRun(s, a, b);
    RivalAnswered(s, a, b);
    var first := FirstAfter(box, low).value;
    FirstOfNewer(box, low, low);
    NewerFilters(box, low);
    assert first in Newer(box, low);
    var e :| e in box && start < e.at <= low;
    NewerFilters(box, start);
    assert s.readers[a].received == [] && [] + [first] == [first];
    assert e in Newer(box, start) && e !in [first];
  }

  /** Such a state: a mailbox with entries of times 3 and 7, and readers that start at 0 and at 5. */
  lemma RivalsExist()
    ensures var slow := Reader(Mailbox(0), Token(0), 0, 0, [], Idle);
            var fast := Reader(Mailbox(0), Token(1), 5, 5, [], Idle);
            var boxes := map[Mailbox(0) := [Entry(3, 0), Entry(7, 0)]];
            Rivals(System(boxes, map[0 := slow, 1 := fast], [], None, None, 0, {}), 0, 1)
  {
    var box := [Entry(3, 0), Entry(7, 0)];
    assert box[0] == Entry(3, 0) && box[1] == Entry(7, 0);
    assert FirstAfter(box, 5) == FirstAfter(box[1..], 5) == Some(Entry(7, 0));
    assert Entry(3, 0) in box;
  }

  // ---------- Why entries must not arrive late ----------

  /** Before anything happens the mailbox of `r` has a first entry for it, and `e` is an earlier one still to come. */
  ghost predicate Overtaken(s: System, r: nat, e: Entry) {
    && Initial(s) && r in s.readers && s.readers[r].start < e.at
    && var first := FirstAfter(s.BoxOf(s.readers[r].mailbox), s.readers[r].start);
       first.Some? && e.at < first.value.at
  }

  /** The reader has asked, the worker has polled, and the reply is on its way. */
  function Served(s: System, r: nat): System
    requires r in s.readers
  {
    DoServe(DoStartPoll(DoAsk(s, r)), KeyOf(s, r))
  }

  lemma ServedIs(s: System, r: nat)
    requires Initial(s) && r in s.readers
    requires FirstAfter(s.BoxOf(s.readers[r].mailbox), s.readers[r].start).Some?
    ensures var s' := Served(s, r); var box := s.BoxOf(s.readers[r].mailbox);
            var q := RequestOf(s.readers[r], r, 0);
            && s'.pending == [q] && s'.poll == Some(PollFor([q])) && s'.boxes == s.boxes
            && s'.reply == Some(Reply(KeyOf(s, r), Page(box, s.readers[r].start)))
            && s'.readers == s.readers[r := s.readers[r].(phase := Waiting(0))]
            && KeyOf(s, r) in s'.poll.value.args && s'.poll.value.args[KeyOf(s, r)] == s.readers[r].start
            && FirstAfter(Page(box, s.readers[r].start), s.readers[r].start) == FirstAfter(box, s.readers[r].start)
  {
    var q, box, start := RequestOf(s.readers[r], r, 0), s.BoxOf(s.readers[r].mailbox), s.readers[r].start;
    assert DoAsk(s, r).pending == [q];
    PollOfOne(q);
    FirstOfPage(box, start);
  }

  lemma PollOfOne(q: Request)
    ensures q.Key() in PollFor([q]).args && PollFor([q]).args[q.Key()] == q.after
  {
    PollCovers([q]);
    CursorBelow([q], PollFor([q]), q);
    var p := CursorAttained([q], PollFor([q]), q.Key());
  }

  lemma FirstOfPage(box: Box, start: nat)
    requires FirstAfter(box, start).Some?
    ensures Page(box, start) != [] && FirstAfter(Page(box, start), start) == FirstAfter(box, start)
  {
    FirstOfNewer(box, start, start);
    NewerFilters(box, start);
    assert Page(box, start)[0] == Newer(box, start)[0] && Newer(box, start)[0] in Newer(box, start);
  }

  lemma ServedIsSane(s: System, r: nat)
    requires Initial(s) && r in s.readers
    ensures Sane(Served(s, r))
  {
    InitialIsSane(s);
    AskKeepsSane(s, r);
    StartPollKeepsSane(DoAsk(s, r));
    ServeKeepsSane(DoStartPoll(DoAsk(s, r)), KeyOf(s, r));
  }

  /** The late entry is behind nobody, so every reader is in order when it has arrived; but it misses the reply. */
  lemma LateArrival(s: System, r: nat, e: Entry)
    requires Overtaken(s, r, e)
    ensures var s' := DoAppend(Served(s, r), s.readers[r].mailbox, e);
            && NewTime(s.BoxOf(s.readers[r].mailbox), e) && ReadersInOrder(s')
            && MissesReply(Served(s, r), s.readers[r].mailbox, e)
            && s'.pending == Served(s, r).pending && s'.poll == Served(s, r).poll && s'.reply == Served(s, r).reply
            && s'.readers == Served(s, r).readers && e in s'.BoxOf(s.readers[r].mailbox)
  {
    var m, box, start := s.readers[r].mailbox, s.BoxOf(s.readers[r].mailbox), s.readers[r].start;
    ServedIs(s, r);
    ServedIsSane(s, r);
    BoxIncreases(s, m);
    FirstIsNew(box, start, e);
    ArriveHolds(box, e);
    AppendReadersIff(Served(s, r), m, e);
    LastOfPage(box, start);
  }

  lemma FirstIsNew(box: Box, start: nat, e: Entry)
    requires Increasing(box) && FirstAfter(box, start).Some? && start < e.at < FirstAfter(box, start).value.at
    ensures NewTime(box, e)
  {
    forall b | b in box ensures b.at != e.at {
      if b.at == e.at {
        FirstIsEarliest(box, start, b);
      }
    }
  }

  lemma LastOfPage(box: Box, start: nat)
    requires Increasing(box) && FirstAfter(box, start).Some?
    ensures var page := Page(box, start); page != [] && FirstAfter(box, start).value.at <= page[|page| - 1].at
  {
    FirstOfNewer(box, start, start);
    NewerIncreases(box, start);
  }

  lemma LateAnswered(s: System, r: nat, e: Entry)
    requires Overtaken(s, r, e)
    ensures var s' := DoRespond(DoAppend(Served(s, r), s.readers[r].mailbox, e));
            var first := FirstAfter(s.BoxOf(s.readers[r].mailbox), s.readers[r].start).value;
            r in s'.readers && s'.readers[r] == s.readers[r].(phase := Holding(first))
  {
    var late := DoAppend(Served(s, r), s.readers[r].mailbox, e);
    ServedIs(s, r);
    LateArrival(s, r, e);
    PollCovers(late.pending);
    RespondIsResponded(late);
    WaiterAnswered(late, r, late.pending[0]);
  }

  /** The schedule that overtakes an entry. */
  function LateEvents(s: System, r: nat, e: Entry): seq<Event>
    requires r in s.readers
  {
    [Ask(r), StartPoll, Serve(KeyOf(s, r))] + [Append(s.readers[r].mailbox, e), Respond, Consume(r)]
  }

  lemma LateRun(s: System, r: nat, e: Entry)
    requires r in s.readers
    ensures Run(s, LateEvents(s, r, e)) == DoConsume(DoRespond(DoAppend(Served(s, r), s.readers[r].mailbox, e)), r)
  {
    RunJoin(s, [Ask(r), StartPoll, Serve(KeyOf(s, r))], [Append(s.readers[r].mailbox, e), Respond, Consume(r)]);
    RunThree(s, Ask(r), StartPoll, Serve(KeyOf(s, r)));
    RunThree(Served(s, r), Append(s.readers[r].mailbox, e), Respond, Consume(r));
  }

  lemma RespondKeepsBoxes(s: System, r: nat)
    ensures DoConsume(DoRespond(s), r).boxes == s.boxes
  {
  }

  /** Even with a single reader and a single token: an entry that arrives late while a reply is in flight is behind no
      reader at that moment, and yet this run hands the reader a later entry and leaves the late one behind it. */
  lemma LateArrivalLeavesGap(s: System, r: nat, e: Entry)
    requires Overtaken(s, r, e)
    ensures ReadersInOrder(DoAppend(Served(s, r), s.readers[r].mailbox, e))
    ensures var s' := Run(s, LateEvents(s, r, e)); var m := s.readers[r].mailbox;
            && r in s'.readers && s'.readers[r].received == [FirstAfter(s.BoxOf(m), s.readers[r].start).value]
            && e in Newer(s'.BoxOf(m), s.readers[r].start) && e !in s'.readers[r].received
            && e.at <= s'.readers[r].cursor
  {
    var late := DoAppend(Served(s, r), s.readers[r].mailbox, e);
    LateRun(s, r, e);
    LateArrival(s, r, e);
    LateAnswered(s, r, e);
    RespondKeepsBoxes(late, r);
    LateIsNewer(late.BoxOf(s.readers[r].mailbox), s.readers[r].start, e);
    var first := FirstAfter(s.BoxOf(s.readers[r].mailbox), s.readers[r].start).value;
    assert s.readers[r].received == [] && [] + [first] == [first];
  }

  lemma LateIsNewer(box: Box, start: nat, e: Entry)
    requires e in box && start < e.at
    ensures e in Newer(box, start)
  {
    NewerFilters(box, start);
  }

  /** Such a state: a mailbox with an entry of time 7, one reader from the beginning, and an entry of time 5 to come. */
  lemma OvertakenExists()
    ensures var reader := Reader(Mailbox(0), Token(0), 0, 0, [], Idle);
            Overtaken(System(map[Mailbox(0) := [Entry(7, 0)]], map[0 := reader], [], None, None, 0, {}), 0, Entry(5, 0))
  {
    assert FirstAfter([Entry(7, 0)], 0) == Some(Entry(7, 0));
  }
}
