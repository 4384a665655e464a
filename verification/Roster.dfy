/** The group roster: a state machine replayed from the group's management log. */
module Roster {
  import opened Common

  datatype User = User(name: string)

  datatype Status = Pending | Accepted | Banned

  datatype Member = Member(isAdmin: bool, status: Status) {
    predicate IsActive() { !status.Banned? }
  }

  datatype Manage =
    | InviteSent(user: User)
    | InviteAccepted
    | Leave
    | Ban(user: User)
    | Unban(user: User)
    | AddAdmin(user: User)
    | RemoveAdmin(user: User)

  datatype Message = Message(sender: User, manage: Manage)

  /** The group's row and member rows. Version 0 means the roster has not been initialized. */
  datatype State = State(members: map<User, Member>, version: nat) {
    predicate Active(u: User) { u in members && members[u].IsActive() }
    predicate Admin(u: User) { u in members && members[u].isAdmin }
    predicate ActiveAdmin(u: User) { Active(u) && members[u].isAdmin }
    predicate IsBanned(u: User) { u in members && members[u].status.Banned? }
  }

  const NEW_GROUP := State(map[], 0)

  function Initialize(s: State, initAdmin: User): State {
    if s.version != 0 then s else State(s.members[initAdmin := Member(true, Accepted)], 1)
  }

  /** The member rows after a message. */
  function Effect(s: State, m: Message): map<User, Member> {
    var sender := m.sender;
    match m.manage
    case InviteSent(u) =>
      if s.Active(sender) && u !in s.members then s.members[u := Member(false, Pending)] else s.members
    case InviteAccepted =>
      if s.IsBanned(sender) then s.members else s.members[sender := Member(false, Accepted)]
    case Leave =>
      if s.IsBanned(sender) then s.members else s.members - {sender}
    case Ban(u) =>
      if s.ActiveAdmin(sender) then s.members[u := Member(false, Banned)] else s.members
    case Unban(u) =>
      if s.ActiveAdmin(sender) && s.IsBanned(u) then s.members[u := Member(false, Pending)] else s.members
    case AddAdmin(u) =>
      if s.ActiveAdmin(sender) && s.Active(u) then s.members[u := Member(true, s.members[u].status)] else s.members
    case RemoveAdmin(u) =>
      if s.ActiveAdmin(sender) && s.Active(u) then s.members[u := Member(false, s.members[u].status)] else s.members
  }

  function Apply(s: State, m: Message): State {
    var members := Effect(s, m);
    State(members, if members == s.members then s.version else s.version + 1)
  }

  /** The roster as a pure fold over the log. */
  function Fold(initAdmin: User, log: seq<Message>): State {
    if log == [] then Initialize(NEW_GROUP, initAdmin)
    else Apply(Fold(initAdmin, log[..|log| - 1]), log[|log| - 1])
  }

  class GroupRoster {
    const initAdmin: User
    var state: State

    constructor (initAdmin: User)
      ensures this.initAdmin == initAdmin && state == NEW_GROUP
    {
      this.initAdmin := initAdmin;
      state := NEW_GROUP;
    }

    /** Upserting reports whether the row differs. */
    method UpsertMember(user: User, member: Member) returns (changed: bool)
      modifies this
      ensures changed == !(user in old(state).members && old(state).members[user] == member)
      ensures state == old(state).(members := old(state).members[user := member])
    {
      if user in state.members && state.members[user] == member {
        assert state.members[user := member] == state.members;
        return false;
      }
      state := state.(members := state.members[user := member]);
      return true;
    }

    method RemoveMember(user: User) returns (changed: bool)
      modifies this
      ensures changed == (user in old(state).members)
      ensures state == old(state).(members := old(state).members - {user})
    {
      changed := user in state.members;
      state := state.(members := state.members - {user});
    }

    /** Every handler loads the roster first, which initializes it once. */
    method Load()
      modifies this
      ensures state == Initialize(old(state), initAdmin)
    {
      if state.version != 0 {
        return;
      }
      var changed := UpsertMember(initAdmin, Member(true, Accepted));
      state := state.(version := 1);
    }

    /** `changed` holds exactly when the member rows differ; only then is the version bumped. */
    method ApplyManageMessage(m: Message) returns (changed: bool)
      modifies this
      ensures state == Apply(old(state), m)
      ensures changed == (state.members != old(state).members)
    {
      var senderActive := state.Active(m.sender);
      var senderAdmin := state.ActiveAdmin(m.sender);
      changed := false;
      match m.manage {
        case InviteSent(u) =>
          if senderActive && u !in state.members {
            changed := UpsertMember(u, Member(false, Pending));
          }
        case InviteAccepted =>
          if m.sender !in state.members || !state.members[m.sender].status.Banned? {
            changed := UpsertMember(m.sender, Member(false, Accepted));
          }
        case Leave =>
          if m.sender in state.members && !state.members[m.sender].status.Banned? {
            changed := RemoveMember(m.sender);
          }
        case Ban(u) =>
          if senderAdmin {
            changed := UpsertMember(u, Member(false, Banned));
          }
        case Unban(u) =>
          if senderAdmin && u in state.members && state.members[u].status.Banned? {
            changed := UpsertMember(u, Member(false, Pending));
          }
        case AddAdmin(u) =>
          if senderAdmin && u in state.members && state.members[u].IsActive() {
            changed := UpsertMember(u, Member(true, state.members[u].status));
          }
        case RemoveAdmin(u) =>
          if senderAdmin && u in state.members && state.members[u].IsActive() {
            changed := UpsertMember(u, Member(false, state.members[u].status));
          }
      }
      if changed {
        state := state.(version := state.version + 1);
      }
    }
  }

  // ---------- Replay ----------

  /** What a client does with the roster: load it, at any time and as often as it likes, or process a logged message. */
  datatype Action = Load | Process(m: Message)

  /** Processing a message loads the roster first. */
  function Act(s: State, initAdmin: User, a: Action): State {
    match a
    case Load => Initialize(s, initAdmin)
    case Process(m) => Apply(Initialize(s, initAdmin), m)
  }

  function Replay(initAdmin: User, actions: seq<Action>): State {
    if actions == [] then NEW_GROUP
    else Act(Replay(initAdmin, actions[..|actions| - 1]), initAdmin, actions[|actions| - 1])
  }

  function LogOf(actions: seq<Action>): seq<Message> {
    if actions == [] then []
    else LogOf(actions[..|actions| - 1]) + (if actions[|actions| - 1].Process? then [actions[|actions| - 1].m] else [])
  }

  lemma {:induction false} FoldVersion(initAdmin: User, log: seq<Message>)
    ensures Fold(initAdmin, log).version == 1 + Effective(initAdmin, log)
    decreases |log|
  {
    if log != [] {
      FoldVersion(initAdmin, log[..|log| - 1]);
    }
  }

  /** How many messages of the log changed the roster. */
  function Effective(initAdmin: User, log: seq<Message>): nat {
    if log == [] then 0
    else
      var front := log[..|log| - 1];
      Effective(initAdmin, front) + if Fold(initAdmin, log).members != Fold(initAdmin, front).members then 1 else 0
  }

  /** Wherever loads and session breaks fall, the roster is the fold of the processed messages. */
  lemma {:induction false} ReplayIsFold(initAdmin: User, actions: seq<Action>)
    ensures Initialize(Replay(initAdmin, actions), initAdmin) == Fold(initAdmin, LogOf(actions))
    ensures LogOf(actions) != [] ==> Replay(initAdmin, actions) == Fold(initAdmin, LogOf(actions))
    decreases |actions|
  {
    if actions != [] {
      var front, last := actions[..|actions| - 1], actions[|actions| - 1];
      ReplayIsFold(initAdmin, front);
      var log := LogOf(front);
      if last.Process? {
        assert (log + [last.m])[..|log|] == log;
        FoldVersion(initAdmin, log + [last.m]);
      } else {
        assert LogOf(actions) == log;
        FoldVersion(initAdmin, log);
      }
    }
  }

  // ---------- Who is an admin ----------

  /** The roster before message `i`. */
  function Before(initAdmin: User, log: seq<Message>, i: nat): State
    requires i <= |log|
  {
    Fold(initAdmin, log[..i])
  }

  /** Message `i` makes `u` an admin: an active admin's AddAdmin of an active member. */
  predicate Grants(initAdmin: User, log: seq<Message>, i: nat, u: User)
    requires i < |log|
  {
    var s := Before(initAdmin, log, i);
    log[i].manage == AddAdmin(u) && s.ActiveAdmin(log[i].sender) && s.Active(u)
  }

  /** Message `i` ends `u`'s admin status: an active admin's Ban or RemoveAdmin, or u's own Leave or InviteAccepted. */
  predicate Revokes(initAdmin: User, log: seq<Message>, i: nat, u: User)
    requires i < |log|
  {
    var s := Before(initAdmin, log, i);
    || (log[i].manage == Ban(u) && s.ActiveAdmin(log[i].sender))
    || (log[i].manage == RemoveAdmin(u) && s.ActiveAdmin(log[i].sender) && s.Active(u))
    || (log[i].sender == u && (log[i].manage.Leave? || log[i].manage.InviteAccepted?) && !s.IsBanned(u))
  }

  ghost predicate NotRevoked(initAdmin: User, log: seq<Message>, from: nat, u: User)
  {
    forall j | from <= j < |log| :: !Revokes(initAdmin, log, j, u)
  }

  /** The last admin-affecting event for `u` is its initialization or a grant. */
  ghost predicate HoldsGrant(initAdmin: User, log: seq<Message>, u: User) {
    || (u == initAdmin && NotRevoked(initAdmin, log, 0, u))
    || exists i :: 0 <= i < |log| && Grants(initAdmin, log, i, u) && NotRevoked(initAdmin, log, i + 1, u)
  }

  ghost predicate AdminsActive(s: State) {
    forall u | s.Admin(u) :: s.Active(u)
  }

  /** No banned member is an admin. */
  lemma {:induction false} NoBannedAdmin(initAdmin: User, log: seq<Message>)
    ensures AdminsActive(Fold(initAdmin, log))
    decreases |log|
  {
    if log != [] {
      var front := Fold(initAdmin, log[..|log| - 1]);
      NoBannedAdmin(initAdmin, log[..|log| - 1]);
      forall u | Fold(initAdmin, log).Admin(u) ensures Fold(initAdmin, log).Active(u) {
        assert front.Admin(u) ==> front.Active(u);
      }
    }
  }

  lemma PrefixEvents(initAdmin: User, front: seq<Message>, last: Message, i: nat, u: User)
    requires i < |front|
    ensures Grants(initAdmin, front + [last], i, u) <==> Grants(initAdmin, front, i, u)
    ensures Revokes(initAdmin, front + [last], i, u) <==> Revokes(initAdmin, front, i, u)
  {
    assert (front + [last])[..i] == front[..i];
  }

  lemma NotRevokedStep(initAdmin: User, front: seq<Message>, last: Message, from: nat, u: User)
    requires from <= |front|
    ensures NotRevoked(initAdmin, front + [last], from, u)
            <==> NotRevoked(initAdmin, front, from, u) && !Revokes(initAdmin, front + [last], |front|, u)
  {
    forall j | from <= j < |front|
      ensures Revokes(initAdmin, front + [last], j, u) <==> Revokes(initAdmin, front, j, u)
    {
      PrefixEvents(initAdmin, front, last, j, u);
    }
  }

  lemma HoldsGrantStep(initAdmin: User, front: seq<Message>, last: Message, u: User)
    ensures var log := front + [last]; var n := |front|;
            HoldsGrant(initAdmin, log, u)
            <==> Grants(initAdmin, log, n, u) || (HoldsGrant(initAdmin, front, u) && !Revokes(initAdmin, log, n, u))
  {
    var log, n := front + [last], |front|;
    NotRevokedStep(initAdmin, front, last, 0, u);
    if HoldsGrant(initAdmin, front, u) && !Revokes(initAdmin, log, n, u)
       && !(u == initAdmin && NotRevoked(initAdmin, front, 0, u)) {
      var i :| 0 <= i < |front| && Grants(initAdmin, front, i, u) && NotRevoked(initAdmin, front, i + 1, u);
      PrefixEvents(initAdmin, front, last, i, u);
      NotRevokedStep(initAdmin, front, last, i + 1, u);
    }
    if HoldsGrant(initAdmin, log, u) && !(u == initAdmin && NotRevoked(initAdmin, log, 0, u)) {
      var i :| 0 <= i < |log| && Grants(initAdmin, log, i, u) && NotRevoked(initAdmin, log, i + 1, u);
      if i < n {
        PrefixEvents(initAdmin, front, last, i, u);
        NotRevokedStep(initAdmin, front, last, i + 1, u);
      }
    }
    if Grants(initAdmin, log, n, u) {
      assert NotRevoked(initAdmin, log, n + 1, u);
    }
  }

  /** One message and one member's admin flag. */
  lemma AdminStep(s: State, m: Message, u: User)
    requires AdminsActive(s)
    ensures Apply(s, m).Admin(u) <==>
              || (m.manage == AddAdmin(u) && s.ActiveAdmin(m.sender) && s.Active(u))
              || (s.Admin(u)
                  && !(m.manage == Ban(u) && s.ActiveAdmin(m.sender))
                  && !(m.manage == RemoveAdmin(u) && s.ActiveAdmin(m.sender) && s.Active(u))
                  && !(m.sender == u && (m.manage.Leave? || m.manage.InviteAccepted?) && !s.IsBanned(u)))
  {
  }

  /** In every reachable roster a member is an admin exactly when its last admin-affecting event is a grant. */
  lemma {:induction false} AdminIff(initAdmin: User, log: seq<Message>, u: User)
    ensures Fold(initAdmin, log).Admin(u) <==> HoldsGrant(initAdmin, log, u)
    decreases |log|
  {
    if log != [] {
      var n := |log| - 1;
      var front, last := log[..n], log[n];
      assert log == front + [last] && log[..n] == front;
      AdminIff(initAdmin, front, u);
      NoBannedAdmin(initAdmin, front);
      HoldsGrantStep(initAdmin, front, last, u);
      AdminStep(Fold(initAdmin, front), last, u);
    }
  }

  // ---------- What status a member has ----------

  /** A user's status, None for one that is no member. */
  function StatusOf(s: State, u: User): Option<Status> {
    if u in s.members then Some(s.members[u].status) else None
  }

  /** In this roster the message sets the status of `u` to `status`. */
  predicate Sets(s: State, m: Message, u: User, status: Option<Status>) {
    match status
    case Some(Banned) => m.manage == Ban(u) && s.ActiveAdmin(m.sender)
    case Some(Pending) =>
      || (m.manage == InviteSent(u) && s.Active(m.sender) && u !in s.members)
      || (m.manage == Unban(u) && s.ActiveAdmin(m.sender) && s.IsBanned(u))
    case Some(Accepted) => m.manage.InviteAccepted? && m.sender == u && !s.IsBanned(u)
    case None => m.manage.Leave? && m.sender == u && !s.IsBanned(u)
  }

  /** Message `i` of the log sets the status of `u` to `status`. */
  predicate SetsAt(initAdmin: User, log: seq<Message>, i: nat, u: User, status: Option<Status>)
    requires i < |log|
  {
    Sets(Before(initAdmin, log, i), log[i], u, status)
  }

  /** Message `i` sets the status of `u`, to whatever. */
  ghost predicate Touches(initAdmin: User, log: seq<Message>, i: nat, u: User)
    requires i < |log|
  {
    exists status :: SetsAt(initAdmin, log, i, u, status)
  }

  /** From position `from` on no message sets the status of `u`. */
  ghost predicate Untouched(initAdmin: User, log: seq<Message>, from: nat, u: User) {
    forall j | from <= j < |log| :: !Touches(initAdmin, log, j, u)
  }

  /** The last message that sets the status of `u` sets it to this, or, if none does, this is its status at first. */
  ghost predicate LastSet(initAdmin: User, log: seq<Message>, u: User, status: Option<Status>) {
    || (status == (if u == initAdmin then Some(Accepted) else None) && Untouched(initAdmin, log, 0, u))
    || exists i :: 0 <= i < |log| && SetsAt(initAdmin, log, i, u, status) && Untouched(initAdmin, log, i + 1, u)
  }

  /** One message and one user's status. */
  lemma StatusStep(s: State, m: Message, u: User, status: Option<Status>)
    ensures StatusOf(Apply(s, m), u) == status
            <==> Sets(s, m, u, status) || (StatusOf(s, u) == status && forall other :: !Sets(s, m, u, other))
  {
    assert Sets(s, m, u, Some(Banned)) || Sets(s, m, u, Some(Pending)) || Sets(s, m, u, Some(Accepted))
           || Sets(s, m, u, None) || forall other :: !Sets(s, m, u, other);
  }

  lemma SetsInPrefix(initAdmin: User, front: seq<Message>, last: Message, i: nat, u: User, status: Option<Status>)
    requires i < |front|
    ensures SetsAt(initAdmin, front + [last], i, u, status) <==> SetsAt(initAdmin, front, i, u, status)
  {
    assert (front + [last])[..i] == front[..i];
  }

  lemma UntouchedStep(initAdmin: User, front: seq<Message>, last: Message, from: nat, u: User)
    requires from <= |front|
    ensures Untouched(initAdmin, front + [last], from, u)
            <==> Untouched(initAdmin, front, from, u) && !Touches(initAdmin, front + [last], |front|, u)
  {
    forall j | from <= j < |front|
      ensures Touches(initAdmin, front + [last], j, u) <==> Touches(initAdmin, front, j, u)
    {
      forall x ensures SetsAt(initAdmin, front + [last], j, u, x) <==> SetsAt(initAdmin, front, j, u, x) {
        SetsInPrefix(initAdmin, front, last, j, u, x);
      }
    }
  }

  lemma LastSetStep(initAdmin: User, front: seq<Message>, last: Message, u: User, status: Option<Status>)
    ensures var log, n := front + [last], |front|;
            LastSet(initAdmin, log, u, status)
            <==> SetsAt(initAdmin, log, n, u, status)
                 || (LastSet(initAdmin, front, u, status) && !Touches(initAdmin, log, n, u))
  {
    var log, n := front + [last], |front|;
    UntouchedStep(initAdmin, front, last, 0, u);
    forall i: nat | i < n
      ensures SetsAt(initAdmin, log, i, u, status) <==> SetsAt(initAdmin, front, i, u, status)
      ensures Untouched(initAdmin, log, i + 1, u)
              <==> Untouched(initAdmin, front, i + 1, u) && !Touches(initAdmin, log, n, u)
    {
      SetsInPrefix(initAdmin, front, last, i, u, status);
      UntouchedStep(initAdmin, front, last, i + 1, u);
    }
    assert Untouched(initAdmin, log, n + 1, u);
  }

  /** After any log a user is banned, pending, accepted or no member exactly as the last message that sets its status
      says: a ban or an unban by an active admin, an invitation of a stranger by an active member, or its own
      acceptance or leave while not banned. */
  lemma {:induction false} StatusIff(initAdmin: User, log: seq<Message>, u: User, status: Option<Status>)
    ensures StatusOf(Fold(initAdmin, log), u) == status <==> LastSet(initAdmin, log, u, status)
    decreases |log|
  {
    if log != [] {
      var n := |log| - 1;
      var front, last := log[..n], log[n];
      assert log == front + [last] && log[..n] == front;
      StatusIff(initAdmin, front, u, status);
      LastSetStep(initAdmin, front, last, u, status);
      StatusStep(Fold(initAdmin, front), last, u, status);
      forall x ensures SetsAt(initAdmin, log, n, u, x) <==> Sets(Fold(initAdmin, front), last, u, x) {
      }
    }
  }

  /** Message `i` is a ban of `u` by an active admin. */
  predicate Bans(initAdmin: User, log: seq<Message>, i: nat, u: User)
    requires i < |log|
  {
    log[i].manage == Ban(u) && Before(initAdmin, log, i).ActiveAdmin(log[i].sender)
  }

  predicate Unbans(initAdmin: User, log: seq<Message>, i: nat, u: User)
    requires i < |log|
  {
    log[i].manage == Unban(u) && Before(initAdmin, log, i).ActiveAdmin(log[i].sender)
  }

  ghost predicate BannedForGood(initAdmin: User, log: seq<Message>, u: User) {
    exists i :: 0 <= i < |log| && Bans(initAdmin, log, i, u)
      && forall j | i < j < |log| :: !Unbans(initAdmin, log, j, u)
  }

  lemma BanStep(s: State, m: Message, u: User)
    ensures Apply(s, m).IsBanned(u)
            <==> (m.manage == Ban(u) && s.ActiveAdmin(m.sender))
                 || (s.IsBanned(u) && !(m.manage == Unban(u) && s.ActiveAdmin(m.sender)))
  {
  }

  lemma BansInPrefix(initAdmin: User, front: seq<Message>, last: Message, i: nat, u: User)
    requires i < |front|
    ensures Bans(initAdmin, front + [last], i, u) <==> Bans(initAdmin, front, i, u)
    ensures Unbans(initAdmin, front + [last], i, u) <==> Unbans(initAdmin, front, i, u)
  {
    assert (front + [last])[..i] == front[..i] && (front + [last])[i] == front[i];
  }

  lemma BannedForGoodStep(initAdmin: User, front: seq<Message>, last: Message, u: User)
    ensures var log, n := front + [last], |front|;
            BannedForGood(initAdmin, log, u)
            <==> Bans(initAdmin, log, n, u)
                 || (BannedForGood(initAdmin, front, u) && !Unbans(initAdmin, log, n, u))
  {
    var log, n := front + [last], |front|;
    forall i: nat | i < n
      ensures Bans(initAdmin, log, i, u) <==> Bans(initAdmin, front, i, u)
      ensures Unbans(initAdmin, log, i, u) <==> Unbans(initAdmin, front, i, u)
    {
      BansInPrefix(initAdmin, front, last, i, u);
    }
    if BannedForGood(initAdmin, front, u) && !Unbans(initAdmin, log, n, u) {
      var i :| 0 <= i < |front| && Bans(initAdmin, front, i, u)
               && forall j | i < j < |front| :: !Unbans(initAdmin, front, j, u);
      assert Bans(initAdmin, log, i, u) && forall j | i < j < |log| :: !Unbans(initAdmin, log, j, u);
    }
    if BannedForGood(initAdmin, log, u) && !Bans(initAdmin, log, n, u) {
      var i :| 0 <= i < |log| && Bans(initAdmin, log, i, u)
               && forall j | i < j < |log| :: !Unbans(initAdmin, log, j, u);
      assert i < n && Bans(initAdmin, front, i, u);
    }
  }

  /** A user is banned exactly if some active admin has banned it and no active admin has unbanned it since. */
  lemma {:induction false} BannedIff(initAdmin: User, log: seq<Message>, u: User)
    ensures Fold(initAdmin, log).IsBanned(u) <==> BannedForGood(initAdmin, log, u)
    decreases |log|
  {
    if log != [] {
      var n := |log| - 1;
      var front, last := log[..n], log[n];
      assert log == front + [last] && log[..n] == front;
      BannedIff(initAdmin, front, u);
      BannedForGoodStep(initAdmin, front, last, u);
      BanStep(Fold(initAdmin, front), last, u);
    }
  }

  // ---------- Delegation paths ----------

  /** Grants leading from `init_admin` to `u`: each names its sender's own grant before it, oldest first. */
  ghost predicate DelegationPath(initAdmin: User, log: seq<Message>, path: seq<nat>, u: User) {
    if path == [] then u == initAdmin
    else
      var i := path[|path| - 1];
      && i < |log| && Grants(initAdmin, log, i, u)
      && DelegationPath(initAdmin, log[..i], path[..|path| - 1], log[i].sender)
  }

  /** Every admin was made one by a finite chain of grants that starts at `init_admin`. */
  lemma {:induction false} AdminHasPath(initAdmin: User, log: seq<Message>, u: User) returns (path: seq<nat>)
    requires Fold(initAdmin, log).Admin(u)
    ensures DelegationPath(initAdmin, log, path, u)
    decreases |log|
  {
    AdminIff(initAdmin, log, u);
    if u == initAdmin && NotRevoked(initAdmin, log, 0, u) {
      path := [];
    } else {
      var i :| 0 <= i < |log| && Grants(initAdmin, log, i, u) && NotRevoked(initAdmin, log, i + 1, u);
      var front := AdminHasPath(initAdmin, log[..i], log[i].sender);
      path := front + [i];
      assert path[..|path| - 1] == front;
    }
  }

  // ---------- A group without admins ----------

  ghost predicate NoAdmin(s: State) {
    forall u :: !s.Admin(u)
  }

  lemma NoAdminStep(s: State, m: Message)
    requires NoAdmin(s)
    ensures NoAdmin(Apply(s, m)) && forall u :: Apply(s, m).IsBanned(u) <==> s.IsBanned(u)
  {
    var s' := Apply(s, m);
    forall u ensures !s'.Admin(u) && (s'.IsBanned(u) <==> s.IsBanned(u)) {
      assert !s.Admin(m.sender) && !s.Admin(u);
    }
  }

  /** Once no admin is left none ever appears, and the set of banned members is frozen. */
  lemma {:induction false} NoAdminForever(initAdmin: User, log: seq<Message>, more: seq<Message>)
    requires NoAdmin(Fold(initAdmin, log))
    ensures NoAdmin(Fold(initAdmin, log + more))
    ensures forall u :: Fold(initAdmin, log + more).IsBanned(u) <==> Fold(initAdmin, log).IsBanned(u)
    decreases |more|
  {
    if more == [] {
      assert log + more == log;
    } else {
      var front := more[..|more| - 1];
      NoAdminForever(initAdmin, log, front);
      assert (log + more)[..|log + more| - 1] == log + front;
      NoAdminStep(Fold(initAdmin, log + front), more[|more| - 1]);
    }
  }
}
