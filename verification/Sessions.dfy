/** The session indexes: by user, by connection and by username, and the groups of online use. */
module Sessions {
  import opened Wrappers

  datatype Session = Session(userId: nat, connectionId: nat, username: string)

  type Groups = map<nat, set<nat>>

  function Joined(groups: Groups, groupId: nat, userId: nat): Groups {
    groups[groupId := (if groupId in groups then groups[groupId] else {}) + {userId}]
  }

  /** An emptied group is erased. */
  function Left(groups: Groups, groupId: nat, userId: nat): Groups {
    if groupId !in groups then groups
    else
      var members := groups[groupId] - {userId};
      if members == {} then groups - {groupId} else groups[groupId := members]
  }

  /** The three indexes; each block under the mutex is one function. */
  datatype Indexes = Indexes(byUser: map<nat, Session>, byConnection: map<nat, nat>, byUsername: map<string, nat>) {
    function Forget(userId: nat): Indexes {
      if userId !in byUser then this
      else this.(byConnection := byConnection - {byUser[userId].connectionId},
                 byUsername := byUsername - {byUser[userId].username})
    }

    function Evict(connectionId: nat): Indexes {
      if connectionId !in byConnection then this
      else
        var userId := byConnection[connectionId];
        this.(byUsername := if userId in byUser then byUsername - {byUser[userId].username} else byUsername,
              byUser := byUser - {userId})
    }

    function Bind(session: Session): Indexes {
      var cleared := Forget(session.userId).Evict(session.connectionId);
      Indexes(cleared.byUser[session.userId := session],
              cleared.byConnection[session.connectionId := session.userId],
              cleared.byUsername[session.username := session.userId])
    }

    function Unbind(userId: nat): Indexes {
      var cleared := Forget(userId);
      cleared.(byUser := cleared.byUser - {userId})
    }

    function UnbindConnection(connectionId: nat): Indexes {
      if connectionId !in byConnection then this
      else
        var cleared := Evict(connectionId);
        cleared.(byConnection := cleared.byConnection - {connectionId})
    }

    function Find(userId: nat): Option<Session> {
      if userId in byUser then Some(byUser[userId]) else None
    }

    function FindByConnection(connectionId: nat): Option<Session> {
      if connectionId in byConnection then Find(byConnection[connectionId]) else None
    }

    function FindByUsername(username: string): Option<Session> {
      if username in byUsername then Find(byUsername[username]) else None
    }

    /** The indexes describe one bijection between users, connections and usernames. */
    ghost predicate Bijective() {
      UsersListed() && ConnectionsListed() && UsernamesListed()
    }

    ghost predicate UsersListed() {
      forall u :: u in byUser ==>
        && byUser[u].userId == u
        && byUser[u].connectionId in byConnection && byConnection[byUser[u].connectionId] == u
        && byUser[u].username in byUsername && byUsername[byUser[u].username] == u
    }

    ghost predicate ConnectionsListed() {
      forall c :: c in byConnection ==> byConnection[c] in byUser && byUser[byConnection[c]].connectionId == c
    }

    ghost predicate UsernamesListed() {
      forall n :: n in byUsername ==> byUsername[n] in byUser && byUser[byUsername[n]].username == n
    }
  }

  const NOBODY := Indexes(map[], map[], map[])

  /** Nobody who stays logged in beside `session` uses its name. */
  ghost predicate NameIsFree(indexes: Indexes, session: Session) {
    forall u :: u in indexes.byUser && u != session.userId && indexes.byUser[u].connectionId != session.connectionId ==>
      indexes.byUser[u].username != session.username
  }

  /** With mutually inverse indexes `bind` keeps them so exactly when the name is free. */
  lemma BindKeeps(indexes: Indexes, session: Session)
    requires indexes.Bijective()
    ensures indexes.Bind(session).Bijective() <==> NameIsFree(indexes, session)
  {
    var after := indexes.Bind(session);
    BoundUsers(indexes, session);
    if NameIsFree(indexes, session) {
      BindKeepsWhenFree(indexes, session);
    } else {
      var u :| u in indexes.byUser && u != session.userId && indexes.byUser[u].connectionId != session.connectionId &&
               indexes.byUser[u].username == session.username;
      assert u in after.byUser && after.byUser[u] == indexes.byUser[u];
      assert after.byUsername[session.username] == session.userId;
    }
  }

  lemma BindKeepsWhenFree(indexes: Indexes, session: Session)
    requires indexes.Bijective() && NameIsFree(indexes, session)
    ensures indexes.Bind(session).Bijective()
  {
    hide Indexes.Bind;
    BindListsUsers(indexes, session);
    BindListsConnections(indexes, session);
    BindListsUsernames(indexes, session);
  }

  lemma BindListsUsers(indexes: Indexes, session: Session)
    requires indexes.Bijective() && NameIsFree(indexes, session)
    ensures indexes.Bind(session).UsersListed()
  {
  }

  lemma BindListsConnections(indexes: Indexes, session: Session)
    requires indexes.Bijective()
    ensures indexes.Bind(session).ConnectionsListed()
  {
  }

  lemma BindListsUsernames(indexes: Indexes, session: Session)
    requires indexes.Bijective()
    ensures indexes.Bind(session).UsernamesListed()
  {
  }

  /** What a bind means for the sessions: those of its user and of its connection end, all others
      stay, and the new one is added. */
  lemma BoundUsers(indexes: Indexes, session: Session)
    requires indexes.Bijective()
    ensures indexes.Bind(session).byUser ==
            (map u | u in indexes.byUser && indexes.byUser[u].connectionId != session.connectionId :: indexes.byUser[u])
            [session.userId := session]
  {
  }

  lemma UnbindKeeps(indexes: Indexes, userId: nat)
    requires indexes.Bijective()
    ensures indexes.Unbind(userId).Bijective()
    ensures indexes.Unbind(userId).byUser == indexes.byUser - {userId}
  {
  }

  /** Unbinding a connection ends exactly the session on it. */
  lemma UnbindConnectionKeeps(indexes: Indexes, connectionId: nat)
    requires indexes.Bijective()
    ensures indexes.UnbindConnection(connectionId).Bijective()
    ensures indexes.UnbindConnection(connectionId).byUser ==
            map u | u in indexes.byUser && indexes.byUser[u].connectionId != connectionId :: indexes.byUser[u]
  {
  }

  /** Under the bijection the three lookups find the same sessions. */
  lemma LookupsAgree(indexes: Indexes, session: Session)
    requires indexes.Bijective()
    ensures indexes.Find(session.userId) == Some(session) <==>
            indexes.FindByConnection(session.connectionId) == Some(session)
    ensures indexes.Find(session.userId) == Some(session) <==> indexes.FindByUsername(session.username) == Some(session)
  {
  }

  datatype Operation = Bind(session: Session) | Unbind(userId: nat) | UnbindConnection(connectionId: nat)

  function Perform(indexes: Indexes, op: Operation): Indexes {
    match op
    case Bind(session) => indexes.Bind(session)
    case Unbind(userId) => indexes.Unbind(userId)
    case UnbindConnection(connectionId) => indexes.UnbindConnection(connectionId)
  }

  function PerformAll(ops: seq<Operation>): Indexes {
    if ops == [] then NOBODY else Perform(PerformAll(ops[..|ops| - 1]), ops[|ops| - 1])
  }

  /** Sessions carry the name their user is registered with, and no two users share one. */
  ghost predicate NamesFrom(names: map<nat, string>, session: Session) {
    session.userId in names && names[session.userId] == session.username
  }

  ghost predicate Injective(names: map<nat, string>) {
    forall u, v :: u in names && v in names && names[u] == names[v] ==> u == v
  }

  /** Any interleaving of the mutex blocks, bound sessions being named as registered: the indexes stay
      mutually inverse. No check before a bind is needed for that. */
  lemma {:induction false} IndexesStayInverse(ops: seq<Operation>, names: map<nat, string>)
    requires Injective(names)
    requires forall i :: 0 <= i < |ops| && ops[i].Bind? ==> NamesFrom(names, ops[i].session)
    ensures PerformAll(ops).Bijective()
    ensures forall u :: u in PerformAll(ops).byUser ==> NamesFrom(names, PerformAll(ops).byUser[u])
  {
    hide Indexes.Bijective, Indexes.Bind, Indexes.Unbind, Indexes.UnbindConnection;
    if ops == [] {
      NobodyIsBijective();
    } else {
      var front, op := ops[..|ops| - 1], ops[|ops| - 1];
      IndexesStayInverse(front, names);
      var before := PerformAll(front);
      match op
      case Bind(session) =>
        NamesKeepFree(before, names, session);
        BindKeeps(before, session);
        BoundUsers(before, session);
      case Unbind(userId) => UnbindKeeps(before, userId);
      case UnbindConnection(connectionId) => UnbindConnectionKeeps(before, connectionId);
    }
  }

  lemma NobodyIsBijective()
    ensures NOBODY.Bijective()
  {
  }

  lemma NamesKeepFree(indexes: Indexes, names: map<nat, string>, session: Session)
    requires indexes.Bijective() && Injective(names) && NamesFrom(names, session)
    requires forall u :: u in indexes.byUser ==> NamesFrom(names, indexes.byUser[u])
    ensures NameIsFree(indexes, session)
  {
  }

  /** What a login checks before it binds. */
  predicate LoginChecks(indexes: Indexes, session: Session) {
    indexes.FindByConnection(session.connectionId).None? && indexes.FindByUsername(session.username).None?
  }

  /** Two logins of one user on two connections that both check before either binds: both succeed, and
      the second bind ends the session of the first, whose connection is left without one. */
  lemma RacingLogins(indexes: Indexes, first: Session, second: Session)
    requires indexes.Bijective() && LoginChecks(indexes, first) && LoginChecks(indexes, second)
    requires first.userId == second.userId && first.username == second.username
    requires first.connectionId != second.connectionId
    ensures var once, twice := indexes.Bind(first), indexes.Bind(first).Bind(second);
            && once.FindByConnection(first.connectionId) == Some(first)
            && twice.FindByConnection(first.connectionId) == None
            && twice.Find(first.userId) == twice.FindByConnection(second.connectionId) == Some(second)
            && twice.Bijective()
  {
    hide Indexes.Bijective, Indexes.Bind;
    FreeForLogin(indexes, first);
    FreeForLogin(indexes, second);
    BindKeeps(indexes, first);
    BoundUsers(indexes, first);
    var once := indexes.Bind(first);
    assert NameIsFree(once, second);
    BindKeeps(once, second);
    BoundUsers(once, second);
    BoundIsFound(indexes, first);
    BoundIsFound(once, second);
    NotOnConnection(once.Bind(second), first.connectionId);
  }

  /** Exactly when a bind ends no session: its login's check still holds at the bind, or the session is
      bound already. */
  lemma BindEvictsNobody(indexes: Indexes, names: map<nat, string>, session: Session)
    requires indexes.Bijective() && Injective(names) && NamesFrom(names, session)
    requires forall u :: u in indexes.byUser ==> NamesFrom(names, indexes.byUser[u])
    ensures (forall u :: u in indexes.byUser ==> indexes.Bind(session).Find(u) == Some(indexes.byUser[u])) <==>
            LoginChecks(indexes, session) || indexes.Find(session.userId) == Some(session)
  {
    hide Indexes.Bind;
    BoundUsers(indexes, session);
    if LoginChecks(indexes, session) {
      FreeForLogin(indexes, session);
    }
    var onConnection, named := indexes.FindByConnection(session.connectionId), indexes.FindByUsername(session.username);
    if onConnection.Some? {
      assert onConnection.value.userId in indexes.byUser;
    }
    if named.Some? {
      assert named.value.userId in indexes.byUser;
    }
  }

  lemma FreeForLogin(indexes: Indexes, session: Session)
    requires indexes.Bijective() && LoginChecks(indexes, session)
    ensures NameIsFree(indexes, session)
    ensures forall u :: u in indexes.byUser ==>
              indexes.byUser[u].connectionId != session.connectionId && indexes.byUser[u].username != session.username
  {
  }

  lemma BoundIsFound(indexes: Indexes, session: Session)
    ensures indexes.Bind(session).FindByConnection(session.connectionId) == Some(session)
    ensures indexes.Bind(session).Find(session.userId) == Some(session)
  {
  }

  lemma NotOnConnection(indexes: Indexes, connectionId: nat)
    requires indexes.Bijective()
    requires forall u :: u in indexes.byUser ==> indexes.byUser[u].connectionId != connectionId
    ensures indexes.FindByConnection(connectionId) == None
  {
  }

  // ------------------------------------------------------------ groups

  ghost predicate NoEmptyGroup(groups: Groups) {
    forall g :: g in groups ==> groups[g] != {}
  }

  predicate IsMember(groups: Groups, groupId: nat, userId: nat) {
    groupId in groups && userId in groups[groupId]
  }

  lemma GroupsKeepNonEmpty(groups: Groups, groupId: nat, userId: nat)
    requires NoEmptyGroup(groups)
    ensures NoEmptyGroup(Joined(groups, groupId, userId)) && NoEmptyGroup(Left(groups, groupId, userId))
    ensures forall g, u :: IsMember(Joined(groups, groupId, userId), g, u) <==>
                           IsMember(groups, g, u) || (g == groupId && u == userId)
    ensures forall g, u :: IsMember(Left(groups, groupId, userId), g, u) <==>
                           IsMember(groups, g, u) && !(g == groupId && u == userId)
  {
    if groupId in groups {
      assert forall u :: u in groups[groupId] && u != userId ==> u in groups[groupId] - {userId};
    }
  }

  // ------------------------------------------------------------ the session manager

  class SessionManager {
    var sessions: map<nat, Session>
    var usersByConnection: map<nat, nat>
    var usersByUsername: map<string, nat>
    var groupMembers: Groups

    ghost function State(): Indexes
      reads this
    {
      Indexes(sessions, usersByConnection, usersByUsername)
    }

    constructor ()
      ensures State() == NOBODY && groupMembers == map[]
    {
      sessions, usersByConnection, usersByUsername, groupMembers := map[], map[], map[], map[];
    }

    method Bind(session: Session)
      modifies this
      ensures State() == old(State()).Bind(session) && groupMembers == old(groupMembers)
    {
      if session.userId in sessions {
        var existing := sessions[session.userId];
        usersByConnection := usersByConnection - {existing.connectionId};
        usersByUsername := usersByUsername - {existing.username};
      }
      if session.connectionId in usersByConnection {
        var oldUser := usersByConnection[session.connectionId];
        if oldUser in sessions {
          usersByUsername := usersByUsername - {sessions[oldUser].username};
        }
        sessions := sessions - {oldUser};
      }
      usersByConnection := usersByConnection[session.connectionId := session.userId];
      usersByUsername := usersByUsername[session.username := session.userId];
      sessions := sessions[session.userId := session];
    }

    method Unbind(userId: nat)
      modifies this
      ensures State() == old(State()).Unbind(userId) && groupMembers == old(groupMembers)
    {
      if userId in sessions {
        usersByConnection := usersByConnection - {sessions[userId].connectionId};
        usersByUsername := usersByUsername - {sessions[userId].username};
      }
      sessions := sessions - {userId};
    }

    method UnbindConnection(connectionId: nat)
      modifies this
      ensures State() == old(State()).UnbindConnection(connectionId) && groupMembers == old(groupMembers)
    {
      if connectionId !in usersByConnection {
        return;
      }
      var userId := usersByConnection[connectionId];
      if userId in sessions {
        usersByUsername := usersByUsername - {sessions[userId].username};
      }
      sessions := sessions - {userId};
      usersByConnection := usersByConnection - {connectionId};
    }

    method FindByConnection(connectionId: nat) returns (found: Option<Session>)
      ensures found == State().FindByConnection(connectionId)
    {
      if connectionId !in usersByConnection {
        return None;
      }
      var userId := usersByConnection[connectionId];
      if userId !in sessions {
        return None;
      }
      return Some(sessions[userId]);
    }

    method FindByUsername(username: string) returns (found: Option<Session>)
      ensures found == State().FindByUsername(username)
    {
      if username !in usersByUsername {
        return None;
      }
      var userId := usersByUsername[username];
      if userId !in sessions {
        return None;
      }
      return Some(sessions[userId]);
    }

    method Find(userId: nat) returns (found: Option<Session>)
      ensures found == State().Find(userId)
    {
      if userId !in sessions {
        return None;
      }
      return Some(sessions[userId]);
    }

    method JoinGroup(groupId: nat, userId: nat)
      modifies this`groupMembers
      ensures groupMembers == Joined(old(groupMembers), groupId, userId)
    {
      if groupId !in groupMembers {
        groupMembers := groupMembers[groupId := {}];
      }
      groupMembers := groupMembers[groupId := groupMembers[groupId] + {userId}];
    }

    method LeaveGroup(groupId: nat, userId: nat)
      modifies this`groupMembers
      ensures groupMembers == Left(old(groupMembers), groupId, userId)
    {
      if groupId !in groupMembers {
        return;
      }
      groupMembers := groupMembers[groupId := groupMembers[groupId] - {userId}];
      if groupMembers[groupId] == {} {
        groupMembers := groupMembers - {groupId};
      }
    }

    method IsGroupMember(groupId: nat, userId: nat) returns (member: bool)
      ensures member == IsMember(groupMembers, groupId, userId)
    {
      member := groupId in groupMembers && userId in groupMembers[groupId];
    }
  }
}
