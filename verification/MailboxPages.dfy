/** A mailbox's entries, the pages the server cuts from them, and cursors that feed back. */
module MailboxPages {
  import opened Common

  datatype Mailbox = Mailbox(id: nat)
  datatype Token = Token(id: nat)
  datatype Entry = Entry(at: nat, body: nat)

  const PAGE_LIMIT: nat := 100

  /** A mailbox's entries as the server lists them: by time, and by arrival among equal times. */
  type Box = seq<Entry>

  function Arrive(box: Box, e: Entry): Box {
    if box == [] then [e]
    else if e.at < box[0].at then [e] + box
    else [box[0]] + Arrive(box[1..], e)
  }

  ghost predicate Increasing(box: Box) {
    forall i, j | 0 <= i < j < |box| :: box[i].at < box[j].at
  }

  /** The entries received after a cursor. */
  function Newer(box: Box, after: nat): Box {
    if box == [] then []
    else if box[0].at > after then [box[0]] + Newer(box[1..], after)
    else Newer(box[1..], after)
  }

  /** What the server returns for a cursor: the first 100 newer entries. */
  function Page(box: Box, after: nat): Box {
    var newer := Newer(box, after);
    if |newer| <= PAGE_LIMIT then newer else newer[..PAGE_LIMIT]
  }

  /** The first entry after a cursor, in list order. */
  function FirstAfter(entries: Box, after: nat): Option<Entry> {
    if entries == [] then None
    else if entries[0].at > after then Some(entries[0])
    else FirstAfter(entries[1..], after)
  }

  // ---------- Pages and cursors ----------

  lemma {:induction false} NewerConcat(a: Box, b: Box, after: nat)
    ensures Newer(a + b, after) == Newer(a, after) + Newer(b, after)
  {
    if a == [] {
      assert a + b == b;
    } else {
      assert (a + b)[1..] == a[1..] + b;
      NewerConcat(a[1..], b, after);
    }
  }

  lemma {:induction false} FirstOfNewer(box: Box, low: nat, after: nat)
    requires low <= after
    ensures FirstAfter(Newer(box, low), after) == FirstAfter(box, after)
    ensures FirstAfter(box, after) == if Newer(box, after) == [] then None else Some(Newer(box, after)[0])
  {
    if box != [] {
      FirstOfNewer(box[1..], low, after);
      if box[0].at > low {
        assert ([box[0]] + Newer(box[1..], low))[1..] == Newer(box[1..], low);
      }
    }
  }

  lemma {:induction false} FirstOfPrefix(entries: Box, n: nat, after: nat)
    requires n <= |entries| && FirstAfter(entries[..n], after).Some?
    ensures FirstAfter(entries, after) == FirstAfter(entries[..n], after)
    decreases n
  {
    if n > 0 && entries[0].at <= after {
      assert entries[..n][1..] == entries[1..][..n - 1];
      FirstOfPrefix(entries[1..], n - 1, after);
    }
  }

  /** A page is the whole of what is newer up to 100 entries, and the first 100 beyond. */
  lemma PageIs(box: Box, after: nat)
    ensures Page(box, after) <= Newer(box, after)
    ensures |Newer(box, after)| <= 100 ==> Page(box, after) == Newer(box, after)
    ensures |Newer(box, after)| > 100 ==> |Page(box, after)| == 100
  {
  }

  /** A page cut at an earlier state of the box is the start of what is newer now. */
  lemma EarlierPageIsPrefix(box: Box, n: nat, low: nat)
    requires n <= |box|
    ensures Page(box[..n], low) <= Newer(box, low)
  {
    assert box == box[..n] + box[n..];
    NewerConcat(box[..n], box[n..], low);
  }

  /** An entry found in a page taken from a smaller cursor is the reader's next, if the page is still the start of
      what is newer. */
  lemma PageFindsNext(box: Box, page: Box, low: nat, after: nat)
    requires page <= Newer(box, low) && low <= after && FirstAfter(page, after).Some?
    ensures FirstAfter(box, after) == FirstAfter(page, after)
  {
    var newer := Newer(box, low);
    assert page == newer[..|page|];
    FirstOfPrefix(newer, |page|, after);
    FirstOfNewer(box, low, after);
  }

  lemma {:induction false} NewerFilters(box: Box, after: nat)
    ensures forall e :: e in Newer(box, after) <==> e in box && e.at > after
  {
    if box != [] {
      assert box == [box[0]] + box[1..];
      NewerFilters(box[1..], after);
    }
  }

  lemma HeadIsEarliest(box: Box)
    requires Increasing(box) && box != []
    ensures Increasing(box[1..]) && forall e | e in box[1..] :: box[0].at < e.at
  {
  }

  /** Feeding back the time of the k-th entry continues exactly after it. */
  lemma {:induction false} CursorContinues(box: Box, start: nat, k: nat)
    requires Increasing(box) && k < |Newer(box, start)|
    ensures Newer(box, Newer(box, start)[k].at) == Newer(box, start)[k + 1..]
  {
    HeadIsEarliest(box);
    var rest := box[1..];
    if box[0].at <= start {
      NewerFilters(rest, start);
      assert Newer(box, start)[k] in Newer(rest, start);
      CursorContinues(rest, start, k);
    } else if k == 0 {
      NewerAll(rest, box[0].at);
      NewerAll(rest, start);
    } else {
      NewerFilters(rest, start);
      assert Newer(box, start)[k] == Newer(rest, start)[k - 1];
      assert Newer(rest, start)[k - 1] in Newer(rest, start);
      CursorContinues(rest, start, k - 1);
      assert Newer(box, start)[k + 1..] == Newer(rest, start)[k..];
    }
  }

  lemma {:induction false} NewerAll(box: Box, after: nat)
    requires forall e | e in box :: e.at > after
    ensures Newer(box, after) == box
  {
    if box != [] {
      assert box[0] in box && forall e | e in box[1..] :: e in box;
      NewerAll(box[1..], after);
    }
  }

  // ---------- Arrivals ----------

  lemma {:induction false} ArriveLast(box: Box, e: Entry)
    requires forall b | b in box :: b.at <= e.at
    ensures Arrive(box, e) == box + [e]
  {
    if box != [] {
      assert box[0] in box && forall b | b in box[1..] :: b in box;
      ArriveLast(box[1..], e);
    }
  }

  lemma {:induction false} ArriveHolds(box: Box, e: Entry)
    ensures forall b :: b in Arrive(box, e) <==> b == e || b in box
  {
    if box != [] && e.at >= box[0].at {
      ArriveHolds(box[1..], e);
      assert box == [box[0]] + box[1..];
    }
  }

  /** No entry of the box has the time of `e`. */
  predicate NewTime(box: Box, e: Entry) { forall b | b in box :: b.at != e.at }

  lemma {:induction false} ArriveIncreases(box: Box, e: Entry)
    requires Increasing(box) && NewTime(box, e)
    ensures Increasing(Arrive(box, e))
  {
    if box != [] {
      HeadIsEarliest(box);
      if e.at > box[0].at {
        ArriveIncreases(box[1..], e);
        ArriveHolds(box[1..], e);
        assert Arrive(box, e)[1..] == Arrive(box[1..], e);
      }
      assert box[0] in box;
    }
  }

  lemma {:induction false} NewerArrive(box: Box, e: Entry, after: nat)
    requires Increasing(box)
    ensures Newer(Arrive(box, e), after) == if e.at > after then Arrive(Newer(box, after), e) else Newer(box, after)
  {
    if box != [] {
      HeadIsEarliest(box);
      if e.at < box[0].at {
        assert ([e] + box)[1..] == box;
        if e.at > after {
          NewerAll(box, after);
        }
      } else {
        NewerArrive(box[1..], e, after);
        assert ([box[0]] + Arrive(box[1..], e))[1..] == Arrive(box[1..], e);
        assert box[0].at > after ==> ([box[0]] + Newer(box[1..], after))[1..] == Newer(box[1..], after);
      }
    }
  }

  lemma {:induction false} PrefixArrive(list: Box, e: Entry, k: nat)
    requires Increasing(list) && k <= |list| && NewTime(list, e)
    ensures list[..k] <= Arrive(list, e) <==> (k > 0 ==> list[k - 1].at < e.at)
  {
    if list != [] && k > 0 {
      HeadIsEarliest(list);
      assert list[k - 1] in list && list[0] in list;
      if e.at < list[0].at {
        assert list[..k][0] == list[0] && Arrive(list, e)[0] == e;
      } else {
        PrefixArrive(list[1..], e, k - 1);
        assert list[..k] == [list[0]] + list[1..][..k - 1];
        assert Arrive(list, e)[1..] == Arrive(list[1..], e);
        assert list[..k] <= Arrive(list, e) <==> list[1..][..k - 1] <= Arrive(list[1..], e) by {
          ConsPrefix(list[0], list[1..][..k - 1], Arrive(list[1..], e));
        }
      }
    }
  }

  lemma ConsPrefix(head: Entry, a: Box, b: Box)
    ensures [head] + a <= [head] + b <==> a <= b
  {
    if [head] + a <= [head] + b {
      assert a == ([head] + b)[..|a| + 1][1..];
      assert b[..|a|] == ([head] + b)[1..|a| + 1];
    }
  }

  lemma FirstArrive(box: Box, e: Entry, after: nat)
    requires Increasing(box)
    ensures var first := FirstAfter(box, after);
            FirstAfter(Arrive(box, e), after)
            == if e.at > after && (first.None? || e.at < first.value.at) then Some(e) else first
  {
    NewerArrive(box, e, after);
    FirstOfNewer(box, after, after);
    FirstOfNewer(Arrive(box, e), after, after);
  }

  /** A page stays the start of what is newer exactly if the arriving entry does not belong into it. */
  lemma PageArriveIff(box: Box, page: Box, low: nat, e: Entry)
    requires Increasing(box) && NewTime(box, e) && page != [] && page <= Newer(box, low)
    ensures page <= Newer(Arrive(box, e), low) <==> !(low < e.at < page[|page| - 1].at)
  {
    NewerIncreases(box, low);
    NewerNewTime(box, low, e);
    NewerArrive(box, e, low);
    LastIsNewer(box, page, low);
    if e.at > low {
      PageOfArrive(Newer(box, low), page, e);
    }
  }

  lemma NewerNewTime(box: Box, low: nat, e: Entry)
    requires NewTime(box, e)
    ensures NewTime(Newer(box, low), e)
  {
    NewerFilters(box, low);
  }

  lemma LastIsNewer(box: Box, page: Box, low: nat)
    requires page != [] && page <= Newer(box, low)
    ensures page[|page| - 1] in box && page[|page| - 1].at > low
  {
    NewerFilters(box, low);
    assert page[|page| - 1] == Newer(box, low)[|page| - 1];
    assert page[|page| - 1] in Newer(box, low);
  }

  lemma PageOfArrive(newer: Box, page: Box, e: Entry)
    requires Increasing(newer) && NewTime(newer, e) && page != [] && page <= newer
    ensures page <= Arrive(newer, e) <==> !(e.at < page[|page| - 1].at)
  {
    PrefixArrive(newer, e, |page|);
    assert page == newer[..|page|] && page[|page| - 1] == newer[|page| - 1];
    assert newer[|page| - 1] in newer;
  }

  lemma {:induction false} NewerIncreases(box: Box, after: nat)
    requires Increasing(box)
    ensures Increasing(Newer(box, after))
  {
    if box != [] {
      HeadIsEarliest(box);
      NewerIncreases(box[1..], after);
      NewerFilters(box[1..], after);
    }
  }

  // ---------- Cursors that are not the request's own ----------

  /** The box holds nothing after the one cursor up to the other. */
  ghost predicate NothingBetween(box: Box, after: nat, low: nat) {
    forall e | e in box :: !(after < e.at <= low)
  }

  /** An entry found in a page requested at cursor `low`, still the start of what is newer, is the next one for a
      request at cursor `after` exactly when the box holds nothing between the two cursors. */
  lemma AnswerIsNextIff(box: Box, page: Box, low: nat, after: nat)
    requires Increasing(box) && page <= Newer(box, low) && FirstAfter(page, after).Some?
    ensures FirstAfter(box, after) == FirstAfter(page, after) <==> NothingBetween(box, after, low)
  {
    if low <= after {
      PageFindsNext(box, page, low, after);
    } else {
      NewerFilters(box, low);
      assert page[0] == Newer(box, low)[0] && page[0] in Newer(box, low);
      assert FirstAfter(page, low) == Some(page[0]) && FirstAfter(page, after) == Some(page[0]);
      PageFindsNext(box, page, low, low);
      SameFirstIff(box, after, low);
    }
  }

  lemma SameFirstIff(box: Box, after: nat, low: nat)
    requires Increasing(box) && after <= low && FirstAfter(box, low).Some?
    ensures FirstAfter(box, after) == FirstAfter(box, low) <==> NothingBetween(box, after, low)
  {
    if NothingBetween(box, after, low) {
      SameNewer(box, low, after);
      FirstOfNewer(box, after, after);
      FirstOfNewer(box, low, low);
    } else {
      var e :| e in box && after < e.at <= low;
      FirstIsEarliest(box, after, e);
      FirstOfNewer(box, low, low);
      NewerFilters(box, low);
      assert Newer(box, low)[0] in Newer(box, low);
    }
  }

  lemma {:induction false} SameNewer(box: Box, low: nat, after: nat)
    requires after <= low && NothingBetween(box, after, low)
    ensures Newer(box, low) == Newer(box, after)
  {
    if box != [] {
      assert box[0] in box && forall e | e in box[1..] :: e in box;
      SameNewer(box[1..], low, after);
    }
  }

  lemma {:induction false} FirstIsEarliest(box: Box, after: nat, e: Entry)
    requires Increasing(box) && e in box && e.at > after
    ensures FirstAfter(box, after).Some? && FirstAfter(box, after).value.at <= e.at
  {
    HeadIsEarliest(box);
    if box[0].at <= after {
      assert e in box[1..];
      FirstIsEarliest(box[1..], after, e);
    }
  }
}
