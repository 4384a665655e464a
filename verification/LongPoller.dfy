/** The worker that multiplexes many requests into one long poll. */
module LongPoller {
  import opened Common
  import opened MailboxPages

  datatype Request = Request(id: nat, reader: nat, mailbox: Mailbox, token: Token, after: nat) {
    function Key(): Key { (mailbox, token) }
  }

  type Key = (Mailbox, Token)
  type Args = map<Key, nat>
  type Indices = map<Key, seq<nat>>

  /** What a poll is made of: the cursor to ask from and the pending requests it is for, key by key. */
  datatype Poll = Poll(args: Args, indices: Indices)

  /** Index `i` is listed under `k`. */
  predicate Lists(indices: Indices, k: Key, i: nat) { k in indices && i in indices[k] }

  /** Every pending request is listed under its key, at a cursor not beyond its own. */
  ghost predicate AllListed(pending: seq<Request>, poll: Poll) {
    forall i | 0 <= i < |pending| ::
      var k := pending[i].Key();
      k in poll.args && poll.args[k] <= pending[i].after && Lists(poll.indices, k, i)
  }

  /** Every listed index is a pending request of that key. */
  ghost predicate AllPending(pending: seq<Request>, poll: Poll) {
    forall k, i: nat | Lists(poll.indices, k, i) :: i < |pending| && pending[i].Key() == k
  }

  /** Every cursor is that of some request of its key. */
  ghost predicate AllAttained(pending: seq<Request>, poll: Poll) {
    forall k | k in poll.args ::
      exists i :: 0 <= i < |pending| && pending[i].Key() == k && pending[i].after == poll.args[k]
  }

  /** A poll covers the pending requests: one argument per mailbox and token, at the least cursor of the requests
      listed under it. */
  ghost predicate Covering(pending: seq<Request>, poll: Poll) {
    AllListed(pending, poll) && AllPending(pending, poll) && AllAttained(pending, poll)
  }

  function WithRequest(poll: Poll, q: Request, n: nat): Poll {
    var k := q.Key();
    Poll(if k !in poll.args || q.after < poll.args[k] then poll.args[k := q.after] else poll.args,
         poll.indices[k := (if k in poll.indices then poll.indices[k] else []) + [n]])
  }

  /** The poll for a pending list. */
  function PollFor(pending: seq<Request>): Poll {
    if pending == [] then Poll(map[], map[])
    else
      var n := |pending| - 1;
      WithRequest(PollFor(pending[..n]), pending[n], n)
  }

  method BuildArgs(pending: seq<Request>) returns (poll: Poll)
    ensures poll == PollFor(pending) && Covering(pending, poll)
  {
    var args: Args, indices: Indices := map[], map[];
    for n := 0 to |pending|
      invariant Poll(args, indices) == PollFor(pending[..n])
    {
      var k, after := pending[n].Key(), pending[n].after;
      assert pending[..n + 1][..n] == pending[..n];
      indices := indices[k := (if k in indices then indices[k] else []) + [n]];
      if k !in args || after < args[k] {
        args := args[k := after];
      }
    }
    assert pending[..|pending|] == pending;
    PollCovers(pending);
    return Poll(args, indices);
  }

  lemma WithRequestLists(poll: Poll, q: Request, n: nat, k: Key, i: nat)
    ensures Lists(WithRequest(poll, q, n).indices, k, i) <==> Lists(poll.indices, k, i) || (k == q.Key() && i == n)
  {
    if k == q.Key() {
      var before := if k in poll.indices then poll.indices[k] else [];
      assert (before + [n])[|before|] == n;
    }
  }

  lemma ListedOneMore(pending: seq<Request>, q: Request, poll: Poll)
    requires AllListed(pending, poll)
    ensures AllListed(pending + [q], WithRequest(poll, q, |pending|))
  {
    var n, more, next := |pending|, pending + [q], WithRequest(poll, q, |pending|);
    forall i | 0 <= i < |more|
      ensures more[i].Key() in next.args && next.args[more[i].Key()] <= more[i].after
      ensures Lists(next.indices, more[i].Key(), i)
    {
      WithRequestLists(poll, q, n, more[i].Key(), i);
      if i < n {
        assert more[i] == pending[i];
      }
    }
  }

  lemma PendingOneMore(pending: seq<Request>, q: Request, poll: Poll)
    requires AllPending(pending, poll)
    ensures AllPending(pending + [q], WithRequest(poll, q, |pending|))
  {
    var n, more, next := |pending|, pending + [q], WithRequest(poll, q, |pending|);
    forall k, i: nat | Lists(next.indices, k, i) ensures i < |more| && more[i].Key() == k {
      WithRequestLists(poll, q, n, k, i);
      if i != n {
        assert Lists(poll.indices, k, i);
        assert more[i] == pending[i];
      }
    }
  }

  lemma AttainedOneMore(pending: seq<Request>, q: Request, poll: Poll)
    requires AllAttained(pending, poll)
    ensures AllAttained(pending + [q], WithRequest(poll, q, |pending|))
  {
    var n, more, next := |pending|, pending + [q], WithRequest(poll, q, |pending|);
    forall k | k in next.args
      ensures exists i :: 0 <= i < |more| && more[i].Key() == k && more[i].after == next.args[k]
    {
      if k == q.Key() && next.args != poll.args {
        assert more[n].Key() == k;
      } else {
        var i :| 0 <= i < |pending| && pending[i].Key() == k && pending[i].after == poll.args[k];
        assert more[i] == pending[i];
      }
    }
  }

  /** A poll covers the list it was built from. */
  lemma {:induction false} PollCovers(pending: seq<Request>)
    ensures Covering(pending, PollFor(pending))
    decreases |pending|
  {
    if pending != [] {
      var n := |pending| - 1;
      var front, q := pending[..n], pending[n];
      PollCovers(front);
      ListedOneMore(front, q, PollFor(front));
      PendingOneMore(front, q, PollFor(front));
      AttainedOneMore(front, q, PollFor(front));
      assert front + [q] == pending;
    }
  }

  type Response = map<Mailbox, Box>

  /** What a request gets from a response: the first entry past its own cursor, looked up by mailbox alone. */
  function Found(response: Response, q: Request): Option<Entry> {
    if q.mailbox in response then FirstAfter(response[q.mailbox], q.after) else None
  }

  /** The same for the request at index `i`, which gets nothing if the poll does not list it. */
  function FoundAt(response: Response, indices: Indices, q: Request, i: nat): Option<Entry> {
    if Lists(indices, q.Key(), i) then Found(response, q) else None
  }

  datatype Answer = Answer(request: Request, entry: Entry)

  /** What a response answers, from index `i` on. */
  function AnsweredFrom(response: Response, indices: Indices, pending: seq<Request>, i: nat): seq<Answer>
    requires i <= |pending|
    decreases |pending| - i
  {
    if i == |pending| then []
    else
      var found := FoundAt(response, indices, pending[i], i);
      (if found.Some? then [Answer(pending[i], found.value)] else [])
      + AnsweredFrom(response, indices, pending, i + 1)
  }

  /** What it leaves pending, from index `i` on. */
  function UnansweredFrom(response: Response, indices: Indices, pending: seq<Request>, i: nat): seq<Request>
    requires i <= |pending|
    decreases |pending| - i
  {
    if i == |pending| then []
    else
      (if FoundAt(response, indices, pending[i], i).Some? then [] else [pending[i]])
      + UnansweredFrom(response, indices, pending, i + 1)
  }

  class Worker {
    var pending: seq<Request>
    var poll: Option<Poll>

    /** A poll in flight covers the pending requests. */
    ghost predicate Valid()
      reads this
    {
      poll.Some? ==> Covering(pending, poll.value)
    }

    constructor ()
      ensures Valid() && pending == [] && poll == None
    {
      pending, poll := [], None;
    }

    /** A request that arrives during a poll wins the race against it and cancels it. */
    method NewRequest(q: Request)
      modifies this
      ensures Valid() && pending == old(pending) + [q] && poll == None
    {
      poll := None;
      pending := pending + [q];
    }

    method StartPoll()
      modifies this
      ensures Valid() && pending == old(pending)
      ensures poll == if pending == [] then None else Some(PollFor(pending))
    {
      if pending == [] {
        poll := None;
        return;
      }
      var built := BuildArgs(pending);
      poll := Some(built);
    }

    /** The poll's response is handled with the poll's own indices. */
    method HandleResponse(response: Response) returns (answers: seq<Answer>)
      requires poll.Some?
      modifies this
      ensures Valid() && poll == None
      ensures answers == AnsweredFrom(response, old(poll.value.indices), old(pending), 0)
      ensures pending == UnansweredFrom(response, old(poll.value.indices), old(pending), 0)
      ensures old(Valid()) ==> answers == Answers(response, old(pending))
      ensures old(Valid()) ==> pending == StillPending(response, old(pending))
    {
      ghost var before, covered := poll.value, Valid();
      var drained, indices := pending, poll.value.indices;
      poll := None;
      answers, pending := AnswerEach(response, indices, drained);
      if covered {
        ListedAreAnswered(response, before, drained, 0);
        assert drained[0..] == drained;
      }
    }

    static method AnswerEach(response: Response, indices: Indices, drained: seq<Request>)
      returns (answers: seq<Answer>, stillPending: seq<Request>)
      ensures answers == AnsweredFrom(response, indices, drained, 0)
      ensures stillPending == UnansweredFrom(response, indices, drained, 0)
    {
      if response == map[] {
        EmptyResponse(indices, drained, 0);
        assert drained[0..] == drained;
        return [], drained;
      }
      answers, stillPending := [], [];
      for i := 0 to |drained|
        invariant answers + AnsweredFrom(response, indices, drained, i) == AnsweredFrom(response, indices, drained, 0)
        invariant stillPending + UnansweredFrom(response, indices, drained, i)
                  == UnansweredFrom(response, indices, drained, 0)
      {
        var q := drained[i];
        TurnOfLoop(response, indices, drained, i, answers, stillPending);
        var found: Option<Entry> := None;
        if q.Key() in indices && i in indices[q.Key()] && q.mailbox in response {
          found := FindEntry(response[q.mailbox], q.after);
        }
        match found {
          case Some(entry) => answers := answers + [Answer(q, entry)];
          case None => stillPending := stillPending + [q];
        }
      }
      assert answers + [] == answers && stillPending + [] == stillPending;
    }

    /** An error from the server goes to every pending request. */
    method HandleError() returns (failed: seq<Request>)
      modifies this
      ensures Valid() && failed == old(pending) && pending == [] && poll == None
    {
      failed := pending;
      pending, poll := [], None;
    }

    static method FindEntry(entries: Box, after: nat) returns (found: Option<Entry>)
      ensures found == FirstAfter(entries, after)
    {
      for i := 0 to |entries|
        invariant FirstAfter(entries, after) == FirstAfter(entries[i..], after)
      {
        if entries[i].at > after {
          return Some(entries[i]);
        }
        assert entries[i..][1..] == entries[i + 1..];
      }
      return None;
    }
  }

  /** A request its poll does not list gets nothing, whatever the response holds, and stays pending in its place. */
  lemma UnlistedStaysPending(response: Response, indices: Indices, pending: seq<Request>, i: nat)
    requires i < |pending| && !(pending[i].Key() in indices && i in indices[pending[i].Key()])
    ensures AnsweredFrom(response, indices, pending, i) == AnsweredFrom(response, indices, pending, i + 1)
    ensures UnansweredFrom(response, indices, pending, i)
            == [pending[i]] + UnansweredFrom(response, indices, pending, i + 1)
  {
    assert [] + AnsweredFrom(response, indices, pending, i + 1) == AnsweredFrom(response, indices, pending, i + 1);
  }

  lemma TurnOfLoop(response: Response, indices: Indices, pending: seq<Request>, i: nat,
                   answers: seq<Answer>, still: seq<Request>)
    requires i < |pending|
    ensures var q := pending[i]; var found := FoundAt(response, indices, q, i);
            && answers + AnsweredFrom(response, indices, pending, i)
               == (if found.Some? then answers + [Answer(q, found.value)] else answers)
                  + AnsweredFrom(response, indices, pending, i + 1)
            && still + UnansweredFrom(response, indices, pending, i)
               == (if found.Some? then still else still + [q]) + UnansweredFrom(response, indices, pending, i + 1)
  {
  }

  lemma {:induction false} EmptyResponse(indices: Indices, pending: seq<Request>, i: nat)
    requires i <= |pending|
    ensures AnsweredFrom(map[], indices, pending, i) == [] && UnansweredFrom(map[], indices, pending, i) == pending[i..]
    decreases |pending| - i
  {
    if i < |pending| {
      EmptyResponse(indices, pending, i + 1);
    }
  }

  function StillPending(response: Response, pending: seq<Request>): seq<Request> {
    if pending == [] then []
    else (if Found(response, pending[0]).Some? then [] else [pending[0]]) + StillPending(response, pending[1..])
  }

  function Answers(response: Response, pending: seq<Request>): seq<Answer> {
    if pending == [] then []
    else
      var found := Found(response, pending[0]);
      (if found.Some? then [Answer(pending[0], found.value)] else []) + Answers(response, pending[1..])
  }

  /** Answers keep the order of the requests: they can be taken piece by piece. */
  lemma {:induction false} AnswersKeepOrder(response: Response, pending: seq<Request>, more: seq<Request>)
    ensures Answers(response, pending + more) == Answers(response, pending) + Answers(response, more)
  {
    if pending == [] {
      assert pending + more == more && [] + Answers(response, more) == Answers(response, more);
    } else {
      var tail := pending[1..];
      assert (pending + more)[0] == pending[0] && (pending + more)[1..] == tail + more;
      AnswersKeepOrder(response, tail, more);
      var found := Found(response, pending[0]);
      var head := if found.Some? then [Answer(pending[0], found.value)] else [];
      assert head + (Answers(response, tail) + Answers(response, more))
          == (head + Answers(response, tail)) + Answers(response, more);
    }
  }

  /** So does what stays pending. */
  lemma {:induction false} PendingKeepsOrder(response: Response, pending: seq<Request>, more: seq<Request>)
    ensures StillPending(response, pending + more) == StillPending(response, pending) + StillPending(response, more)
  {
    if pending == [] {
      assert pending + more == more && [] + StillPending(response, more) == StillPending(response, more);
    } else {
      var tail := pending[1..];
      assert (pending + more)[0] == pending[0] && (pending + more)[1..] == tail + more;
      PendingKeepsOrder(response, tail, more);
      var head := if Found(response, pending[0]).Some? then [] else [pending[0]];
      assert head + (StillPending(response, tail) + StillPending(response, more))
          == (head + StillPending(response, tail)) + StillPending(response, more);
    }
  }

  /** While the poll covers the pending list, its indices play no part. */
  lemma {:induction false} ListedAreAnswered(response: Response, poll: Poll, pending: seq<Request>, i: nat)
    requires AllListed(pending, poll) && i <= |pending|
    ensures AnsweredFrom(response, poll.indices, pending, i) == Answers(response, pending[i..])
    ensures UnansweredFrom(response, poll.indices, pending, i) == StillPending(response, pending[i..])
    decreases |pending| - i
  {
    if i < |pending| {
      ListedAreAnswered(response, poll, pending, i + 1);
      assert pending[i..][0] == pending[i] && pending[i..][1..] == pending[i + 1..];
    }
  }

  lemma {:induction false} AnswersAre(response: Response, pending: seq<Request>)
    ensures forall a :: a in Answers(response, pending)
              <==> a.request in pending && Found(response, a.request) == Some(a.entry)
    ensures forall q :: q in StillPending(response, pending) <==> q in pending && Found(response, q).None?
    ensures |StillPending(response, pending)| + |Answers(response, pending)| == |pending|
  {
    if pending != [] {
      assert pending == [pending[0]] + pending[1..];
      AnswersAre(response, pending[1..]);
    }
  }

  /** The cursor a poll sends for a key: the least one among its requests. */
  function LeastCursor(pending: seq<Request>, key: Key): Option<nat> {
    if pending == [] then None
    else
      var rest := LeastCursor(pending[1..], key);
      if pending[0].Key() != key || (rest.Some? && rest.value <= pending[0].after) then rest else Some(pending[0].after)
  }

  lemma {:induction false} LeastCursorIs(pending: seq<Request>, key: Key)
    ensures forall q | q in pending && q.Key() == key ::
              LeastCursor(pending, key).Some? && LeastCursor(pending, key).value <= q.after
    ensures LeastCursor(pending, key).Some? ==>
              exists q :: q in pending && q.Key() == key && q.after == LeastCursor(pending, key).value
  {
    if pending != [] {
      LeastCursorIs(pending[1..], key);
      if LeastCursor(pending, key).Some? && LeastCursor(pending, key) != Some(pending[0].after) {
        var q :| q in pending[1..] && q.Key() == key && q.after == LeastCursor(pending[1..], key).value;
        assert q in pending;
      }
    }
  }

  lemma CursorAttained(pending: seq<Request>, poll: Poll, key: Key) returns (q: Request)
    requires AllAttained(pending, poll) && key in poll.args
    ensures q in pending && q.Key() == key && q.after == poll.args[key]
  {
    var i :| 0 <= i < |pending| && pending[i].Key() == key && pending[i].after == poll.args[key];
    q := pending[i];
  }

  lemma CursorBelow(pending: seq<Request>, poll: Poll, q: Request)
    requires AllListed(pending, poll) && q in pending
    ensures q.Key() in poll.args && poll.args[q.Key()] <= q.after
  {
    var i :| 0 <= i < |pending| && pending[i] == q;
  }

  lemma LeastIsAttained(pending: seq<Request>, key: Key) returns (q: Request)
    requires LeastCursor(pending, key).Some?
    ensures q in pending && q.Key() == key && q.after == LeastCursor(pending, key).value
  {
    LeastCursorIs(pending, key);
    q :| q in pending && q.Key() == key && q.after == LeastCursor(pending, key).value;
  }

  lemma LeastIsBelow(pending: seq<Request>, key: Key, q: Request)
    requires q in pending && q.Key() == key
    ensures LeastCursor(pending, key).Some? && LeastCursor(pending, key).value <= q.after
  {
    LeastCursorIs(pending, key);
  }

  /** The cursors of a covering poll are the least ones, key by key. */
  lemma CoveringIsLeast(pending: seq<Request>, poll: Poll, key: Key)
    requires Covering(pending, poll)
    ensures LeastCursor(pending, key) == if key in poll.args then Some(poll.args[key]) else None
  {
    if key in poll.args {
      var p := CursorAttained(pending, poll, key);
      LeastIsBelow(pending, key, p);
    }
    if LeastCursor(pending, key).Some? {
      var q := LeastIsAttained(pending, key);
      CursorBelow(pending, poll, q);
    }
  }

  /** A non-empty page for any argument of a covering poll answers someone: the pending list strictly shrinks. */
  lemma NonEmptyResponseShrinks(pending: seq<Request>, poll: Poll, key: Key, page: Box)
    requires Covering(pending, poll) && key in poll.args && page != [] && page[0].at > poll.args[key]
    ensures |UnansweredFrom(map[key.0 := page], poll.indices, pending, 0)| < |pending|
  {
    var response: Response := map[key.0 := page];
    var q := CursorAttained(pending, poll, key);
    AnswersAre(response, pending);
    assert Answer(q, page[0]) in Answers(response, pending);
    ListedAreAnswered(response, poll, pending, 0);
    assert pending[0..] == pending;
  }
}
