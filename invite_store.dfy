/**
 * The relational state both the controller and the registration service work
 * on: the invites and partnerships tables, which they change, and the users
 * and goals tables, which they only read. Every public operation runs as one
 * transaction under a per-goal lock, so each is modelled as one atomic step.
 */
module InviteStore {
  import opened Wrappers
  import opened PartnerInvite
  import opened InviteRules

  /** An invitation e-mail, recorded once the state change it announces is done. */
  datatype Mail = Mail(to: string, inviteId: int, url: string)

  /**
   * The invariant the tables keep: digests unique (the unique `token_hash`
   * index), ids below the next auto-increment value, every invite naming an
   * existing goal and inviter (the foreign keys), and at most one live invite
   * per goal.
   */
  predicate WellFormed(t: Tables, users: map<int, User>, goals: map<int, Goal>, nextId: int)
  {
    && UniqueDigests(t.invites)
    && (forall id :: id in t.invites ==> id < nextId)
    && (forall id :: id in t.invites ==> t.invites[id].goalId in goals && t.invites[id].inviterId in users)
    && AtMostOneLivePerGoal(t)
  }

  /** Expiring or cancelling rows in bulk keeps the tables well formed. */
  lemma SetStatusKeepsWellFormed(t: Tables, ids: set<int>, s: Status, now: Time,
                                 users: map<int, User>, goals: map<int, Goal>, nextId: int)
    requires WellFormed(t, users, goals, nextId)
    requires s != Pending && s != Accepted
    ensures WellFormed(Tables(SetStatus(t.invites, ids, s, now), t.partnerships), users, goals, nextId)
  {
    var u := Tables(SetStatus(t.invites, ids, s, now), t.partnerships);
    SetStatusShrinksLive(t, ids, s, now);
    LiveShrinksKeepsAtMostOne(t, u);
    SameColumnsKeepWellFormed(t, u, users, goals, nextId);
  }

  /**
   * Rewriting one row keeps the tables well formed when its goal and inviter
   * stay, its digest stays or becomes an unused one, and it is live only if
   * it was live before.
   */
  lemma UpdateKeepsWellFormed(t: Tables, id: int, inv: Invite,
                              users: map<int, User>, goals: map<int, Goal>, nextId: int)
    requires WellFormed(t, users, goals, nextId)
    requires id in t.invites
    requires inv.goalId == t.invites[id].goalId && inv.inviterId == t.invites[id].inviterId
    requires inv.tokenHash == t.invites[id].tokenHash || DigestUnused(t.invites, inv.tokenHash)
    requires Live(inv, t.partnerships) ==> Live(t.invites[id], t.partnerships)
    ensures WellFormed(Tables(t.invites[id := inv], t.partnerships), users, goals, nextId)
  {
    var u := Tables(t.invites[id := inv], t.partnerships);
    UpdateShrinksLive(t, id, inv);
    LiveShrinksKeepsAtMostOne(t, u);
  }

  lemma DeleteKeepsWellFormed(t: Tables, ids: set<int>, users: map<int, User>, goals: map<int, Goal>, nextId: int)
    requires WellFormed(t, users, goals, nextId)
    ensures WellFormed(Tables(t.invites - ids, t.partnerships), users, goals, nextId)
  {
    DeleteShrinksLive(t, ids);
    LiveShrinksKeepsAtMostOne(t, Tables(t.invites - ids, t.partnerships));
  }

  /** One claim keeps the tables well formed. */
  lemma ClaimOneKeepsWellFormed(t: Tables, id: int, userId: int, now: Time,
                                users: map<int, User>, goals: map<int, Goal>, nextId: int)
    requires WellFormed(t, users, goals, nextId) && id in t.invites
    ensures WellFormed(ClaimOne(t, id, userId, now), users, goals, nextId)
  {
    ClaimOneShrinksLive(t, id, userId, now);
    LiveShrinksKeepsAtMostOne(t, ClaimOne(t, id, userId, now));
  }

  /** Pruning keeps the tables well formed. */
  lemma PruneKeepsWellFormed(t: Tables, now: Time, retentionDays: int,
                             users: map<int, User>, goals: map<int, Goal>, nextId: int)
    requires WellFormed(t, users, goals, nextId)
    ensures WellFormed(Tables(Prune(t.invites, now, retentionDays).0, t.partnerships), users, goals, nextId)
  {
    var u := Tables(Prune(t.invites, now, retentionDays).0, t.partnerships);
    PruneShrinksLive(t, now, retentionDays);
    LiveShrinksKeepsAtMostOne(t, u);
    PruneKeepsExactlyUnresolved(t.invites, now, retentionDays);
    SameColumnsKeepWellFormed(t, u, users, goals, nextId);
  }

  /** Rows that keep their goal, inviter and digest, with no row added, keep the keys valid and the digests unique. */
  lemma SameColumnsKeepWellFormed(t: Tables, u: Tables, users: map<int, User>, goals: map<int, Goal>, nextId: int)
    requires WellFormed(t, users, goals, nextId) && AtMostOneLivePerGoal(u)
    requires u.invites.Keys <= t.invites.Keys
    requires forall id :: id in u.invites ==>
      && u.invites[id].goalId == t.invites[id].goalId
      && u.invites[id].inviterId == t.invites[id].inviterId
      && u.invites[id].tokenHash == t.invites[id].tokenHash
    ensures WellFormed(u, users, goals, nextId)
  {
  }

  class Database {
    const users: map<int, User>
    const goals: map<int, Goal>
    var invites: Invites
    var partnerships: Partnerships
    var nextInviteId: int
    var outbox: seq<Mail>

    function Snapshot(): Tables
      reads this
    {
      Tables(invites, partnerships)
    }

    predicate Valid()
      reads this
    {
      WellFormed(Snapshot(), users, goals, nextInviteId)
    }

    /** The digest of `token` is stored on no invite: what a fresh `Str::random(64)` is assumed to give. */
    predicate DigestFree(token: string)
      reads this
    {
      DigestUnused(invites, DigestOf(token))
    }

    constructor (users: map<int, User>, goals: map<int, Goal>)
      ensures Valid()
      ensures this.users == users && this.goals == goals
      ensures invites == map[] && partnerships == map[] && outbox == []
    {
      this.users := users;
      this.goals := goals;
      invites := map[];
      partnerships := map[];
      nextInviteId := 1;
      outbox := [];
    }
  }
}
