/** Mailbox access control: who may change which row, and where rights come from. */
module MailboxAcl {
  import opened Common

  datatype Token = Token(id: nat)

  /** Token hashes as free constructors; `Other` is the hash of no token. */
  datatype TokenHash = OfToken(token: Token) | Other(id: nat)

  const ANONYMOUS := OfToken(Token(0))

  datatype Acl = Acl(canEdit: bool, canSend: bool, canRecv: bool) {
    predicate Has(right: Right) {
      match right
      case Edit => canEdit
      case Send => canSend
      case Recv => canRecv
    }
  }

  datatype Right = Edit | Send | Recv

  const EMPTY := Acl(false, false, false)
  const ANONYMOUS_ACL := Acl(false, true, false)
  const DEVICE_ACL := Acl(false, true, true)
  const CREATOR_ACL := Acl(true, true, true)

  /** One mailbox: whether its row exists, and its ACL rows. */
  datatype Mailbox = Mailbox(created: bool, rows: map<TokenHash, Acl>)

  const ABSENT := Mailbox(false, map[])

  datatype Reply = Done | AccessDenied | RetryLater

  predicate IsSubset(candidate: Acl, holder: Acl) {
    && (!candidate.canEdit || holder.canEdit)
    && (!candidate.canSend || holder.canSend)
    && (!candidate.canRecv || holder.canRecv)
  }

  /** The row that speaks for a token: its own, else the anonymous one. */
  function Effective(rows: map<TokenHash, Acl>, auth: Token): Option<TokenHash> {
    if OfToken(auth) in rows then Some(OfToken(auth))
    else if ANONYMOUS in rows then Some(ANONYMOUS)
    else None
  }

  function AclForToken(rows: map<TokenHash, Acl>, auth: Token): Acl {
    var holder := Effective(rows, auth);
    if holder.Some? then rows[holder.value] else EMPTY
  }

  predicate SelfRemoval(auth: Token, target: TokenHash, acl: Acl) {
    target == OfToken(auth) && acl == EMPTY
  }

  /** The edit reaches its write. */
  predicate Writes(m: Mailbox, auth: Token, target: TokenHash, acl: Acl) {
    && !SelfRemoval(auth, target, acl)
    && !(target in m.rows && m.rows[target] == acl)
    && m.created
    && (AclForToken(m.rows, auth).canEdit || (target !in m.rows && IsSubset(acl, AclForToken(m.rows, auth))))
  }

  function AfterEdit(m: Mailbox, auth: Token, target: TokenHash, acl: Acl): Mailbox {
    if SelfRemoval(auth, target, acl) then m.(rows := m.rows - {target})
    else if Writes(m, auth, target, acl) then m.(rows := m.rows[target := acl])
    else m
  }

  function AfterUpdate(m: Mailbox, device: Option<Token>): Mailbox {
    var rows := m.rows[ANONYMOUS := ANONYMOUS_ACL];
    Mailbox(true, if device.Some? then rows[OfToken(device.value) := DEVICE_ACL] else rows)
  }

  function AfterRegister(m: Mailbox, auth: Token, known: bool): Mailbox {
    if known then Mailbox(true, m.rows[OfToken(auth) := CREATOR_ACL]) else m
  }

  class MailboxRows {
    var state: Mailbox

    constructor ()
      ensures state == ABSENT
    {
      state := ABSENT;
    }

    /** Self-removal first, then the no-op, then the delegation rule; a row for a mailbox that does not exist is
        refused. */
    method AclEdit(auth: Token, target: TokenHash, acl: Acl) returns (reply: Reply)
      modifies this
      ensures state == AfterEdit(old(state), auth, target, acl)
      ensures reply == Done <==>
                || SelfRemoval(auth, target, acl)
                || (target in old(state).rows && old(state).rows[target] == acl)
                || Writes(old(state), auth, target, acl)
      ensures reply == RetryLater ==> !old(state).created
      ensures reply == AccessDenied ==>
                var holder := AclForToken(old(state).rows, auth);
                state == old(state) && !holder.canEdit && !(target !in old(state).rows && IsSubset(acl, holder))
    {
      if target == OfToken(auth) && acl == EMPTY {
        state := state.(rows := state.rows - {target});
        return Done;
      }
      var existing := if target in state.rows then Some(state.rows[target]) else None;
      if existing == Some(acl) {
        return Done;
      }
      var callerAcl := AclForToken(state.rows, auth);
      var canAddSubset := existing.None? && IsSubset(acl, callerAcl);
      if !callerAcl.canEdit && !canAddSubset {
        return AccessDenied;
      }
      if !state.created {
        return RetryLater;
      }
      state := state.(rows := state.rows[target := acl]);
      return Done;
    }

    method UpdateDmMailbox(device: Option<Token>)
      modifies this
      ensures state == AfterUpdate(old(state), device)
    {
      state := state.(created := true);
      state := state.(rows := state.rows[ANONYMOUS := ANONYMOUS_ACL]);
      if device.Some? {
        state := state.(rows := state.rows[OfToken(device.value) := DEVICE_ACL]);
      }
    }

    /** Group mailboxes start with, or later get, a creator row for any known token that registers them. */
    method RegisterGroup(auth: Token, known: bool) returns (reply: Reply)
      modifies this
      ensures reply == if known then Done else AccessDenied
      ensures state == AfterRegister(old(state), auth, known)
    {
      if !known {
        return AccessDenied;
      }
      state := state.(created := true);
      state := state.(rows := state.rows[OfToken(auth) := CREATOR_ACL]);
      return Done;
    }
  }

  // ---------- Runs ----------

  /** `Register` is one of a group's two mailboxes being registered by a token the server knows or does not know. */
  datatype Event =
    | AclEdit(auth: Token, target: TokenHash, acl: Acl)
    | UpdateDm(device: Option<Token>)
    | Register(auth: Token, known: bool)

  function Step(m: Mailbox, e: Event): Mailbox {
    match e
    case AclEdit(auth, target, acl) => AfterEdit(m, auth, target, acl)
    case UpdateDm(device) => AfterUpdate(m, device)
    case Register(auth, known) => AfterRegister(m, auth, known)
  }

  /** The mailbox after a run of events, from its absence. */
  function After(events: seq<Event>): Mailbox {
    if events == [] then ABSENT else Step(After(events[..|events| - 1]), events[|events| - 1])
  }

  lemma AfterOneMore(events: seq<Event>, e: Event)
    ensures After(events + [e]) == Step(After(events), e)
  {
    assert (events + [e])[..|events|] == events;
  }

  lemma {:induction false} NoRowsWithoutMailbox(events: seq<Event>)
    ensures !After(events).created ==> After(events) == ABSENT
  {
    if events != [] {
      NoRowsWithoutMailbox(events[..|events| - 1]);
    }
  }

  // ---------- Where rights come from ----------

  /** The server itself writes a row with this right: a direct mailbox's anonymous or device row, or a creator row. */
  predicate Root(e: Event, to: TokenHash, right: Right) {
    match e
    case AclEdit(_, _, _) => false
    case UpdateDm(device) =>
      if device.Some? && to == OfToken(device.value) then DEVICE_ACL.Has(right)
      else to == ANONYMOUS && ANONYMOUS_ACL.Has(right)
    case Register(auth, known) => known && to == OfToken(auth)
  }

  /** An edit writes a row with this right for `to`, on the strength of the row of `from`, which then held `via`:
      the right itself or the right to edit. */
  ghost predicate Delegates(events: seq<Event>, i: nat, from: TokenHash, via: Right, to: TokenHash, right: Right)
    requires i < |events|
  {
    var m := After(events[..i]);
    && events[i].AclEdit? && events[i].target == to && events[i].acl.Has(right)
    && Writes(m, events[i].auth, to, events[i].acl)
    && Effective(m.rows, events[i].auth) == Some(from) && m.rows[from].Has(via) && (via == right || via == Edit)
  }

  /** The row of `t` has stood as it is since event `i`. */
  ghost predicate Standing(events: seq<Event>, i: nat, t: TokenHash) {
    && i < |events|
    && forall k | i < k <= |events| ::
         var rows := After(events[..k]).rows;
         t in rows && t in After(events).rows && rows[t] == After(events).rows[t]
  }

  /** `path` lists, oldest first, the events of a grant chain to the current row of `to`: the last wrote that row,
      either as the server itself or on the strength of a row that the rest of the path leads to. */
  ghost predicate Traces(events: seq<Event>, path: seq<nat>, to: TokenHash, right: Right)
    decreases |path|
  {
    && path != []
    && var i := path[|path| - 1];
       && Standing(events, i, to)
       && if |path| == 1 then Root(events[i], to, right)
          else exists from, via ::
            Delegates(events, i, from, via, to, right) && Traces(events[..i], path[..|path| - 1], from, via)
  }

  lemma StandingOneMore(events: seq<Event>, e: Event, i: nat, to: TokenHash)
    requires Standing(events, i, to)
    requires var rows := After(events + [e]).rows;
             to in rows && to in After(events).rows && rows[to] == After(events).rows[to]
    ensures Standing(events + [e], i, to)
  {
    var more := events + [e];
    forall k | i < k <= |more|
      ensures to in After(more[..k]).rows && After(more[..k]).rows[to] == After(more).rows[to]
    {
      if k <= |events| {
        assert more[..k] == events[..k];
      } else {
        assert more[..k] == more;
      }
    }
  }

  lemma TracesStands(events: seq<Event>, e: Event, path: seq<nat>, to: TokenHash, right: Right)
    requires Traces(events, path, to, right)
    requires var rows := After(events + [e]).rows;
             to in rows && to in After(events).rows && rows[to] == After(events).rows[to]
    ensures Traces(events + [e], path, to, right)
  {
    var i, more := path[|path| - 1], events + [e];
    StandingOneMore(events, e, i, to);
    assert more[..i] == events[..i] && more[i] == events[i];
    if |path| > 1 {
      var from, via :|
        Delegates(events, i, from, via, to, right) && Traces(events[..i], path[..|path| - 1], from, via);
      assert Delegates(more, i, from, via, to, right);
    }
  }

  /** A right that is newly on a row, and that the server did not write itself, was delegated by the last event. */
  lemma NewRightIsDelegated(events: seq<Event>, to: TokenHash, right: Right) returns (from: TokenHash, via: Right)
    requires events != [] && to in After(events).rows && After(events).rows[to].Has(right)
    requires var before := After(events[..|events| - 1]);
             !(to in before.rows && before.rows[to] == After(events).rows[to])
    requires !Root(events[|events| - 1], to, right)
    ensures from in After(events[..|events| - 1]).rows && After(events[..|events| - 1]).rows[from].Has(via)
    ensures Delegates(events, |events| - 1, from, via, to, right)
  {
    var before, e := After(events[..|events| - 1]), events[|events| - 1];
    assert e.AclEdit? && Writes(before, e.auth, e.target, e.acl) && e.target == to;
    from := Effective(before.rows, e.auth).value;
    via := if before.rows[from].canEdit then Edit else right;
  }

  /** Every right on every row of every mailbox traces back through grants to a row the server wrote itself. */
  lemma {:induction false} RightsTraceBack(events: seq<Event>, to: TokenHash, right: Right) returns (path: seq<nat>)
    requires to in After(events).rows && After(events).rows[to].Has(right)
    ensures Traces(events, path, to, right)
    decreases |events|
  {
    var n := |events| - 1;
    var earlier, e := events[..n], events[n];
    var before := After(earlier);
    assert events == earlier + [e] && events[..|events|] == events;
    if Root(e, to, right) {
      path := [n];
    } else if to in before.rows && before.rows[to] == After(events).rows[to] {
      path := RightsTraceBack(earlier, to, right);
      TracesStands(earlier, e, path, to, right);
    } else {
      var from, via := NewRightIsDelegated(events, to, right);
      var granted := RightsTraceBack(earlier, from, via);
      path := granted + [n];
      assert path[..|path| - 1] == granted;
    }
  }

  // ---------- Direct mailboxes ----------

  /** A direct mailbox is never registered as a group's. */
  ghost predicate Direct(events: seq<Event>) {
    forall e | e in events :: !e.Register?
  }

  ghost predicate NoEditor(m: Mailbox) {
    forall t | t in m.rows :: !m.rows[t].canEdit
  }

  /** No row of a direct mailbox ever carries the right to edit the ACL. */
  lemma {:induction false} DirectHasNoEditor(events: seq<Event>)
    requires Direct(events)
    ensures NoEditor(After(events))
    decreases |events|
  {
    if events != [] {
      var front, last := events[..|events| - 1], events[|events| - 1];
      assert last in events && forall e | e in front :: e in events;
      DirectHasNoEditor(front);
    }
  }

  /** A row that is present changes only when `update_dm_mailbox` rewrites it, and disappears only when its own token
      removes it. */
  lemma RowChanges(events: seq<Event>, e: Event, t: TokenHash)
    requires Direct(events) && !e.Register? && t in After(events).rows
    ensures var before, after := After(events), Step(After(events), e);
            && (t in after.rows && after.rows[t] != before.rows[t] ==>
                  e.UpdateDm? && (t == ANONYMOUS || (e.device.Some? && t == OfToken(e.device.value))))
            && (t !in after.rows <==> e.AclEdit? && SelfRemoval(e.auth, e.target, e.acl) && e.target == t)
  {
    DirectHasNoEditor(events);
  }

  /** Every link of a grant chain on a direct mailbox rests on the granted right itself, for want of editors. */
  lemma DirectDelegatesOwnRight(events: seq<Event>, i: nat, from: TokenHash, via: Right, to: TokenHash, right: Right)
    requires Direct(events) && i < |events| && Delegates(events, i, from, via, to, right)
    ensures via == right
  {
    assert forall e | e in events[..i] :: e in events;
    DirectHasNoEditor(events[..i]);
  }

  /** A grant chain every link of which rests on the very right it grants. */
  ghost predicate OwnRightChain(events: seq<Event>, path: seq<nat>, to: TokenHash, right: Right)
    decreases |path|
  {
    && path != []
    && var i := path[|path| - 1];
       && Standing(events, i, to)
       && if |path| == 1 then Root(events[i], to, right)
          else exists from ::
            Delegates(events, i, from, right, to, right) && OwnRightChain(events[..i], path[..|path| - 1], from, right)
  }

  /** On a direct mailbox every grant chain is of that kind, and starts where `update_dm_mailbox` wrote the right. */
  lemma {:induction false} DirectChainsKeepRight(events: seq<Event>, path: seq<nat>, to: TokenHash, right: Right)
    returns (first: TokenHash)
    requires Direct(events) && Traces(events, path, to, right)
    ensures OwnRightChain(events, path, to, right)
    ensures path[0] < |events| && events[path[0]].UpdateDm? && Root(events[path[0]], first, right)
    decreases |path|
  {
    var i := path[|path| - 1];
    assert events[i] in events;
    if |path| == 1 {
      first := to;
    } else {
      var from, via :|
        Delegates(events, i, from, via, to, right) && Traces(events[..i], path[..|path| - 1], from, via);
      DirectDelegatesOwnRight(events, i, from, via, to, right);
      assert forall e | e in events[..i] :: e in events;
      first := DirectChainsKeepRight(events[..i], path[..|path| - 1], from, right);
    }
  }

  // ---------- What a token may do in effect ----------

  /** What a token may do in a mailbox, by its own row or the anonymous one. */
  predicate May(m: Mailbox, x: Token, right: Right) { AclForToken(m.rows, x).Has(right) }

  /** A token's rights are those of its row if it has one, else those of the anonymous row, else none. */
  lemma MayIff(m: Mailbox, x: Token, right: Right)
    ensures May(m, x, right)
            <==> if OfToken(x) in m.rows then m.rows[OfToken(x)].Has(right)
                 else ANONYMOUS in m.rows && m.rows[ANONYMOUS].Has(right)
  {
  }

  /** `update_dm_mailbox`, by rights: tokens without a row may send and neither receive nor edit; the device's token
      may send and receive and not edit; the rows of all others stay as they are. */
  lemma UpdateGivesRights(m: Mailbox, device: Option<Token>, x: Token)
    ensures var after := Step(m, UpdateDm(device));
            && after.created
            && (device != Some(Token(0)) && (OfToken(x) !in after.rows || x == Token(0)) ==>
                  May(after, x, Send) && !May(after, x, Recv) && !May(after, x, Edit))
            && (device == Some(x) ==> May(after, x, Send) && May(after, x, Recv) && !May(after, x, Edit))
            && (OfToken(x) != ANONYMOUS && device != Some(x) ==>
                  && (OfToken(x) in after.rows <==> OfToken(x) in m.rows)
                  && (OfToken(x) in m.rows ==> after.rows[OfToken(x)] == m.rows[OfToken(x)]))
  {
  }

  /** Registering, by rights: a known token may do everything, and an unknown one changes nothing; all other rows stay
      as they are. */
  lemma RegisterGivesRights(m: Mailbox, auth: Token, known: bool, right: Right, other: TokenHash)
    requires other != OfToken(auth)
    ensures var after := Step(m, Register(auth, known));
            && (known ==> after.created && May(after, auth, right)) && (!known ==> after == m)
            && (other in after.rows <==> other in m.rows) && (other in m.rows ==> after.rows[other] == m.rows[other])
  {
  }

  /** An edit, by rights. The row of the target is afterwards the one asked for if and only if it was so before, or the
      mailbox exists and the caller may edit or adds a row to a target that has none with no right but its own; unless
      it is the caller removing its own row. All other rows stay as they are. */
  lemma EditWritesIff(m: Mailbox, auth: Token, target: TokenHash, acl: Acl, other: TokenHash)
    requires other != target
    ensures var after := Step(m, AclEdit(auth, target, acl));
            && (if target == OfToken(auth) && forall right :: !acl.Has(right) then target !in after.rows
                else target in after.rows && after.rows[target] == acl
                     <==> (target in m.rows && m.rows[target] == acl)
                          || (m.created
                              && (May(m, auth, Edit)
                                  || (target !in m.rows && forall right :: acl.Has(right) ==> May(m, auth, right)))))
            && (other in after.rows <==> other in m.rows) && (other in m.rows ==> after.rows[other] == m.rows[other])
  {
    SubsetByRights(acl, AclForToken(m.rows, auth));
    assert acl == EMPTY <==> !acl.Has(Edit) && !acl.Has(Send) && !acl.Has(Recv);
  }

  lemma SubsetByRights(candidate: Acl, holder: Acl)
    ensures IsSubset(candidate, holder) <==> forall right :: candidate.Has(right) ==> holder.Has(right)
  {
    assert candidate.Has(Edit) <==> candidate.canEdit;
    assert candidate.Has(Send) <==> candidate.canSend;
    assert candidate.Has(Recv) <==> candidate.canRecv;
    if forall right :: candidate.Has(right) ==> holder.Has(right) {
      assert holder.Has(Edit) <==> holder.canEdit;
      assert holder.Has(Send) <==> holder.canSend;
      assert holder.Has(Recv) <==> holder.canRecv;
    }
  }

  /** The row of `target` decides what `x` may do: it is its own, or the anonymous one while it has none. */
  predicate Governs(m: Mailbox, target: TokenHash, x: Token) {
    target == OfToken(x) || (target == ANONYMOUS && OfToken(x) !in m.rows)
  }

  /** Exactly when an edit by one token takes from another a right it had: the edit goes through, the row it sets will
      govern the other token, and it lacks the right. */
  lemma EditTakesIff(m: Mailbox, auth: Token, target: TokenHash, acl: Acl, x: Token, right: Right)
    requires x != auth && AclForToken(m.rows, x).Has(right)
    ensures !AclForToken(AfterEdit(m, auth, target, acl).rows, x).Has(right)
            <==> Governs(m, target, x) && !acl.Has(right)
                 && (SelfRemoval(auth, target, acl) || Writes(m, auth, target, acl))
  {
    var after := AfterEdit(m, auth, target, acl);
    if !Governs(m, target, x) {
      assert Effective(after.rows, x) == Effective(m.rows, x);
    }
  }

  /** On a direct mailbox a token that has a row of its own loses nothing to others. */
  lemma DirectRowProtects(events: seq<Event>, auth: Token, target: TokenHash, acl: Acl, x: Token, right: Right)
    requires Direct(events) && x != auth && OfToken(x) in After(events).rows
    requires AclForToken(After(events).rows, x).Has(right)
    ensures AclForToken(After(events + [AclEdit(auth, target, acl)]).rows, x).Has(right)
  {
    DirectHasNoEditor(events);
    AfterOneMore(events, AclEdit(auth, target, acl));
    EditTakesIff(After(events), auth, target, acl, x, right);
  }

  /** One that has none can be given an empty row by any other, and then may do nothing the anonymous row allows. */
  lemma EmptyRowTakesAll(events: seq<Event>, auth: Token, x: Token)
    requires After(events).created && OfToken(x) !in After(events).rows && x != auth
    ensures AclForToken(After(events + [AclEdit(auth, OfToken(x), EMPTY)]).rows, x) == EMPTY
  {
    AfterOneMore(events, AclEdit(auth, OfToken(x), EMPTY));
    assert IsSubset(EMPTY, AclForToken(After(events).rows, auth));
    assert Writes(After(events), auth, OfToken(x), EMPTY);
  }

  /** As on a direct mailbox just created, where every token may send. */
  lemma FreshMailboxLetsAllSend(x: Token)
    ensures After([UpdateDm(None)]).created && After([UpdateDm(None)]).rows.Keys == {ANONYMOUS}
    ensures var m := After([UpdateDm(None)]); May(m, x, Send) && !May(m, x, Recv) && !May(m, x, Edit)
  {
    assert [UpdateDm(None)] == [] + [UpdateDm(None)];
    AfterOneMore([], UpdateDm(None));
  }

  // ---------- Group mailboxes ----------

  /** A group's mailbox is never updated as a direct one. */
  ghost predicate Group(events: seq<Event>) {
    forall e | e in events :: !e.UpdateDm?
  }

  predicate Registration(e: Event) { e.Register? && e.known }

  /** A group's mailbox exists exactly if some known token has registered the group. */
  lemma {:induction false} GroupExistsIff(events: seq<Event>)
    requires Group(events)
    ensures After(events).created <==> exists e :: e in events && Registration(e)
    decreases |events|
  {
    if events != [] {
      var front, last := events[..|events| - 1], events[|events| - 1];
      assert forall e :: e in events <==> e in front || e == last by {
        assert events == front + [last];
      }
      assert last in events;
      GroupExistsIff(front);
    }
  }

  /** Every grant chain on a group's mailbox starts at the registration of the group by a known token. */
  lemma {:induction false} GroupChainsStartAtRegistration(events: seq<Event>, path: seq<nat>, to: TokenHash,
                                                          right: Right)
    requires Group(events) && Traces(events, path, to, right)
    ensures path[0] < |events| && Registration(events[path[0]])
    decreases |path|
  {
    var i := path[|path| - 1];
    assert events[i] in events;
    if |path| > 1 {
      var from, via :|
        Delegates(events, i, from, via, to, right) && Traces(events[..i], path[..|path| - 1], from, via);
      assert forall e | e in events[..i] :: e in events;
      GroupChainsStartAtRegistration(events[..i], path[..|path| - 1], from, via);
    }
  }

  /** Registering a group again gives one more known token every right, with which it may set the row of any other. */
  lemma RegisteredTokenMayEdit(events: seq<Event>, auth: Token, target: TokenHash, acl: Acl)
    requires target != OfToken(auth)
    ensures var after := After(events + [Register(auth, true), AclEdit(auth, target, acl)]);
            target in after.rows && after.rows[target] == acl
  {
    var registered := events + [Register(auth, true)];
    AfterOneMore(events, Register(auth, true));
    AfterOneMore(registered, AclEdit(auth, target, acl));
    assert registered + [AclEdit(auth, target, acl)] == events + [Register(auth, true), AclEdit(auth, target, acl)];
  }

  /** Row `t` carries this right. */
  predicate Holds(m: Mailbox, t: TokenHash, right: Right) { t in m.rows && m.rows[t].Has(right) }

  /** Without registering, whoever has no row and finds no anonymous one changes nobody's rights. */
  lemma StrangersChangeNoRights(events: seq<Event>, auth: Token, target: TokenHash, acl: Acl, t: TokenHash,
                                right: Right)
    requires OfToken(auth) !in After(events).rows && ANONYMOUS !in After(events).rows
    ensures Holds(After(events + [AclEdit(auth, target, acl)]), t, right) <==> Holds(After(events), t, right)
  {
    AfterOneMore(events, AclEdit(auth, target, acl));
    var m := After(events);
    assert AclForToken(m.rows, auth) == EMPTY;
    assert Writes(m, auth, target, acl) ==> target !in m.rows && !acl.Has(right);
  }
}
