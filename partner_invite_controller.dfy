/**
 * `PartnerInviteController`: the goal owner's endpoints (list, create,
 * resend, cancel) and the public endpoints an invitee reaches through the
 * e-mailed link (resolve, respond). Each endpoint is one method on the
 * controller, changing the shared `Database` and returning the HTTP response
 * it would send.
 *
 * The authenticated user, the clock and every `Str::random(64)` token are
 * parameters; a fresh token is one whose digest no invite stores yet.
 */
module PartnerInviteApi {
  import opened Wrappers
  import opened Common
  import opened PartnerInvite
  import opened InviteRules
  import opened InviteStore

  /** The `services.partner_invites` settings the controller reads. */
  datatype Config = Config(expiryHours: int, acceptedClaimDays: int, urlBase: string)

  datatype Decision = Accept | Decline

  /** The reasons behind a 409. */
  datatype ConflictReason = AlreadyPartnered | PendingInviteOpen | AcceptedAwaitingClaim | NoLongerClaimable

  /** The reasons behind a 422. */
  datatype RejectReason = SelfInvite | OnlyPendingResendable | ExpiredCreateNew | NotDeletable | NoLongerPending(status: Status)

  /** The invite as the token landing page sees it. */
  datatype TokenView = TokenView(
    id: int,
    goalId: int,
    goalTitle: string,
    inviterName: string,
    role: Role,
    notifyOnAlerts: bool,
    expiresAt: Option<Time>,
    status: Status,
    canRespond: bool)

  datatype Response =
    | Listed(invites: seq<InviteJson>)
    | Created(invite: InviteJson)
    | Resent(invite: InviteJson)
    | Deleted
    | TokenResolved(view: TokenView)
    | Answered(answer: InviteJson, decision: Decision)
    | Unauthorized
    | NotFound
    | Conflict(conflict: ConflictReason)
    | Gone
    | Unprocessable(reason: RejectReason)

  function StatusCode(r: Response): (code: int)
    ensures code < 300 <==> r.Listed? || r.Created? || r.Resent? || r.Deleted? || r.TokenResolved? || r.Answered?
    ensures code == 409 <==> r.Conflict?
    ensures code == 422 <==> r.Unprocessable?
  {
    match r
    case Listed(_) => 200
    case Created(_) => 201
    case Resent(_) => 200
    case Deleted => 204
    case TokenResolved(_) => 200
    case Answered(_, _) => 200
    case Unauthorized => 403
    case NotFound => 404
    case Conflict(_) => 409
    case Gone => 410
    case Unprocessable(_) => 422
  }

  /** `rtrim($s, '/')`. */
  function RTrimSlashes(s: string): (r: string)
    ensures r <= s
    ensures r == [] || r[|r| - 1] != '/'
    ensures forall i :: |r| <= i < |s| ==> s[i] == '/'
    decreases |s|
  {
    if s != [] && s[|s| - 1] == '/' then RTrimSlashes(s[..|s| - 1]) else s
  }

  /**
   * `buildInviteUrl`: the base without trailing slashes, then the token as a
   * query parameter. `urlencode` is the identity on the alphanumeric tokens
   * `Str::random` yields, so it does not appear.
   */
  function BuildInviteUrl(base: string, token: string): (url: string)
    ensures RTrimSlashes(base) <= url
    ensures url[|RTrimSlashes(base)|..] == "?token=" + token
  {
    RTrimSlashes(base) + "?token=" + token
  }

  /** Trailing slashes on the configured base do not change the link. */
  lemma TrailingSlashIrrelevant(base: string, token: string)
    ensures BuildInviteUrl(base + "/", token) == BuildInviteUrl(base, token)
  {
    assert (base + "/")[..|base + "/"| - 1] == base;
  }

  function SerializeAll(invites: Invites, ids: seq<int>): (js: seq<InviteJson>)
    requires forall i :: 0 <= i < |ids| ==> ids[i] in invites
    ensures |js| == |ids|
    ensures forall i :: 0 <= i < |ids| ==> js[i] == Serialize(ids[i], invites[ids[i]])
  {
    seq(|ids|, i requires 0 <= i < |ids| => Serialize(ids[i], invites[ids[i]]))
  }

  /**
   * The list for a goal after both sweeps: exactly the goal's unarchived
   * invites, newest first, none of them stale.
   */
  lemma ListShowsLiveHistory(t: Tables, goalId: int, now: Time, claimDays: int)
    ensures var r := SweepGoal(t, goalId, now, claimDays);
      var ids := NewestFirst(r, VisibleIds(r, goalId));
      && (forall id :: id in ids <==> id in t.invites && t.invites[id].goalId == goalId && t.invites[id].archivedAt.None?)
      && (forall i :: 0 <= i < |ids| ==> !StalePending(r[ids[i]], now))
      && (forall i, j :: 0 <= i < j < |ids| ==> r[ids[i]].createdAt >= r[ids[j]].createdAt)
  {
    SweepGoalLeavesNothingStale(t, goalId, now, claimDays);
    SweepGoalKeepsGoalAndArchive(t, goalId, now, claimDays);
  }

  /** `canDelete`: pending, or accepted while the goal has no partnership. */
  predicate Cancellable(inv: Invite, partnerships: Partnerships)
  {
    inv.status == Pending || (inv.status == Accepted && inv.goalId !in partnerships)
  }

  /**
   * The owner can always clear what blocks a new invite: a live invite is
   * cancellable, and once it is deleted the goal has no live invite left.
   */
  lemma CancelUnblocksGoal(t: Tables, id: int)
    requires AtMostOneLivePerGoal(t)
    requires id in t.invites && Live(t.invites[id], t.partnerships)
    ensures Cancellable(t.invites[id], t.partnerships)
    ensures NoLiveInvite(Tables(t.invites - {id}, t.partnerships), t.invites[id].goalId)
  {
  }

  /** The response's `invite` object for the token page. */
  function Project(id: int, inv: Invite, goals: map<int, Goal>, users: map<int, User>, partnerships: Partnerships): (v: TokenView)
    requires inv.goalId in goals && inv.inviterId in users
    ensures v.id == id && v.goalId == inv.goalId && v.status == inv.status && v.expiresAt == inv.expiresAt
    ensures v.goalTitle == goals[inv.goalId].title && v.inviterName == users[inv.inviterId].name
    ensures v.canRespond <==> inv.status == Pending && inv.goalId !in partnerships
  {
    TokenView(id, inv.goalId, goals[inv.goalId].title, users[inv.inviterId].name, inv.role,
              inv.notifyOnAlerts, inv.expiresAt, inv.status,
              inv.status == Pending && inv.goalId !in partnerships)
  }

  /** Who the new invite is addressed to: a user whose lower-cased e-mail matches, if there is one. */
  predicate InviteeMatches(inviteeId: Option<int>, users: map<int, User>, email: string)
  {
    match inviteeId
    case None => forall u :: u in users ==> Lower(users[u].email) != email
    case Some(u) => u in users && Lower(users[u].email) == email
  }

  class PartnerInviteController {
    const db: Database
    const config: Config

    constructor (db: Database, config: Config)
      ensures this.db == db && this.config == config
    {
      this.db := db;
      this.config := config;
    }

    /** `listGoalPartnerInvites`. */
    method ListGoalPartnerInvites(goalId: int, actorId: int, now: Time) returns (r: Response)
      requires db.Valid() && goalId in db.goals
      modifies db
      ensures db.Valid()
      ensures db.goals[goalId].ownerId != actorId ==> r == Unauthorized && unchanged(db)
      ensures db.goals[goalId].ownerId == actorId ==>
        && db.invites == SweepGoal(old(db.Snapshot()), goalId, now, config.acceptedClaimDays)
        && db.partnerships == old(db.partnerships)
        && db.nextInviteId == old(db.nextInviteId) && db.outbox == old(db.outbox)
        && r == Listed(SerializeAll(db.invites, NewestFirst(db.invites, VisibleIds(db.invites, goalId))))
    {
      if db.goals[goalId].ownerId != actorId {
        return Unauthorized;
      }
      ExpirePendingInvitesForGoal(goalId, now);
      ExpireStaleAcceptedUnclaimedInvitesForGoal(goalId, now);
      var ids := NewestFirst(db.invites, VisibleIds(db.invites, goalId));
      r := Listed(SerializeAll(db.invites, ids));
    }

    /**
     * `createGoalPartnerInvite`: the owner invites someone by e-mail. Every
     * refusal leaves the database as it was; on success the new invite is the
     * goal's only live one, and its e-mail goes out after the commit.
     */
    method CreateGoalPartnerInvite(goalId: int, actorId: int, inviteeEmail: string, role: Role,
                                   notifyOnAlerts: bool, now: Time, newToken: string) returns (r: Response)
      requires db.Valid() && goalId in db.goals && actorId in db.users
      requires db.DigestFree(newToken)
      modifies db
      ensures db.Valid()
      ensures var email := Lower(inviteeEmail);
        var swept := Tables(SweepGoal(old(db.Snapshot()), goalId, now, config.acceptedClaimDays), old(db.partnerships));
        r.Created? <==>
          && db.goals[goalId].ownerId == actorId
          && email != Lower(db.users[actorId].email)
          && goalId !in old(db.partnerships)
          && !PendingInviteExists(swept.invites, goalId)
          && !AcceptedUnclaimedInviteExists(swept, goalId)
      ensures var email := Lower(inviteeEmail);
        var swept := Tables(SweepGoal(old(db.Snapshot()), goalId, now, config.acceptedClaimDays), old(db.partnerships));
        !r.Created? ==>
          && db.invites == old(db.invites) && db.partnerships == old(db.partnerships)
          && db.nextInviteId == old(db.nextInviteId) && db.outbox == old(db.outbox)
          && r == (if db.goals[goalId].ownerId != actorId then Unauthorized
                   else if email == Lower(db.users[actorId].email) then Unprocessable(SelfInvite)
                   else if goalId in old(db.partnerships) then Conflict(AlreadyPartnered)
                   else if PendingInviteExists(swept.invites, goalId) then Conflict(PendingInviteOpen)
                   else Conflict(AcceptedAwaitingClaim))
      ensures var email := Lower(inviteeEmail);
        var id := old(db.nextInviteId);
        r.Created? ==>
          && id !in old(db.invites) && id in db.invites
          && db.invites == SweepGoal(old(db.Snapshot()), goalId, now, config.acceptedClaimDays)[id := db.invites[id]]
          && db.invites[id] == Invite(goalId, actorId, db.invites[id].inviteeId, email, Pending, role, notifyOnAlerts,
                                      DigestOf(newToken), Some(now + SecondsPerHour * config.expiryHours),
                                      Some(now), None, None, now)
          && InviteeMatches(db.invites[id].inviteeId, db.users, email)
          && Live(db.invites[id], db.partnerships)
          && db.nextInviteId == id + 1
          && db.partnerships == old(db.partnerships)
          && db.outbox == old(db.outbox) + [Mail(email, id, BuildInviteUrl(config.urlBase, newToken))]
          && r == Created(Serialize(id, db.invites[id]))
    {
      if db.goals[goalId].ownerId != actorId {
        return Unauthorized;
      }
      var email := Lower(inviteeEmail);
      if email == Lower(db.users[actorId].email) {
        return Unprocessable(SelfInvite);
      }
      var id;
      r, id := CreateInTransaction(goalId, actorId, email, role, notifyOnAlerts, now, newToken);
      if r.Created? {
        db.outbox := db.outbox + [Mail(email, id, BuildInviteUrl(config.urlBase, newToken))];
      }
    }

    /**
     * The transaction of `createGoalPartnerInvite`, under the goal's lock: a
     * conflict throws and rolls the sweeps back.
     */
    method CreateInTransaction(goalId: int, actorId: int, email: string, role: Role,
                               notifyOnAlerts: bool, now: Time, newToken: string) returns (r: Response, id: int)
      requires db.Valid() && goalId in db.goals && actorId in db.users
      requires db.DigestFree(newToken)
      modifies db
      ensures db.Valid()
      ensures var swept := Tables(SweepGoal(old(db.Snapshot()), goalId, now, config.acceptedClaimDays), old(db.partnerships));
        r.Created? <==>
          && goalId !in old(db.partnerships)
          && !PendingInviteExists(swept.invites, goalId)
          && !AcceptedUnclaimedInviteExists(swept, goalId)
      ensures !r.Created? ==>
        && db.invites == old(db.invites) && db.partnerships == old(db.partnerships)
        && db.nextInviteId == old(db.nextInviteId) && db.outbox == old(db.outbox)
      ensures var swept := Tables(SweepGoal(old(db.Snapshot()), goalId, now, config.acceptedClaimDays), old(db.partnerships));
        !r.Created? ==>
          r == (if goalId in old(db.partnerships) then Conflict(AlreadyPartnered)
                else if PendingInviteExists(swept.invites, goalId) then Conflict(PendingInviteOpen)
                else Conflict(AcceptedAwaitingClaim))
      ensures var swept := SweepGoal(old(db.Snapshot()), goalId, now, config.acceptedClaimDays);
        r.Created? ==>
          && id == old(db.nextInviteId) && id !in old(db.invites) && id in db.invites
          && db.invites == swept[id := db.invites[id]]
          && db.invites[id] == Invite(goalId, actorId, db.invites[id].inviteeId, email, Pending, role, notifyOnAlerts,
                                      DigestOf(newToken), Some(now + SecondsPerHour * config.expiryHours),
                                      Some(now), None, None, now)
          && InviteeMatches(db.invites[id].inviteeId, db.users, email)
          && Live(db.invites[id], db.partnerships)
          && db.nextInviteId == id + 1
          && db.partnerships == old(db.partnerships) && db.outbox == old(db.outbox)
          && r == Created(Serialize(id, db.invites[id]))
    {
      id := db.nextInviteId;
      if goalId in db.partnerships {
        return Conflict(AlreadyPartnered), id;
      }
      var before := db.invites;
      ExpirePendingInvitesForGoal(goalId, now);
      ExpireStaleAcceptedUnclaimedInvitesForGoal(goalId, now);
      ghost var swept := db.Snapshot();
      assert swept.invites == SweepGoal(old(db.Snapshot()), goalId, now, config.acceptedClaimDays);
      if PendingInviteExists(db.invites, goalId) {
        db.invites := before;
        return Conflict(PendingInviteOpen), id;
      }
      if AcceptedUnclaimedInviteExists(db.Snapshot(), goalId) {
        db.invites := before;
        return Conflict(AcceptedAwaitingClaim), id;
      }
      NoConflictIffNoLiveInvite(db.Snapshot(), goalId);
      InsertInvite(goalId, actorId, email, role, notifyOnAlerts, now, newToken);
      r := Created(Serialize(id, db.invites[id]));
    }

    /**
     * The insert at the end of the transaction: a pending invite addressed to
     * the user with that e-mail, if any, expiring after the configured hours.
     */
    method InsertInvite(goalId: int, actorId: int, email: string, role: Role,
                        notifyOnAlerts: bool, now: Time, newToken: string)
      requires db.Valid() && goalId in db.goals && actorId in db.users
      requires db.DigestFree(newToken)
      requires NoLiveInvite(db.Snapshot(), goalId)
      modifies db
      ensures db.Valid()
      ensures var id := old(db.nextInviteId);
        && id !in old(db.invites) && id in db.invites
        && db.invites == old(db.invites)[id := db.invites[id]]
        && db.invites[id] == Invite(goalId, actorId, db.invites[id].inviteeId, email, Pending, role, notifyOnAlerts,
                                    DigestOf(newToken), Some(now + SecondsPerHour * config.expiryHours),
                                    Some(now), None, None, now)
        && InviteeMatches(db.invites[id].inviteeId, db.users, email)
      ensures db.nextInviteId == old(db.nextInviteId) + 1
      ensures db.partnerships == old(db.partnerships) && db.outbox == old(db.outbox)
    {
      var inviteeId: Option<int> := None;
      if exists u :: u in db.users && Lower(db.users[u].email) == email {
        var u :| u in db.users && Lower(db.users[u].email) == email;
        inviteeId := Some(u);
      }
      var id := db.nextInviteId;
      var inv := Invite(goalId, actorId, inviteeId, email, Pending, role, notifyOnAlerts, DigestOf(newToken),
                        Some(now + SecondsPerHour * config.expiryHours), Some(now), None, None, now);
      InsertIntoQuietGoal(db.Snapshot(), id, inv);
      db.invites := db.invites[id := inv];
      db.nextInviteId := id + 1;
    }

    /**
     * `resendGoalPartnerInviteEmail`: a pending, unexpired invite gets a new
     * token and a new e-mail, and the link in the previous e-mail stops working.
     */
    method ResendGoalPartnerInviteEmail(inviteId: int, actorId: int, now: Time, newToken: string) returns (r: Response)
      requires db.Valid() && inviteId in db.invites
      requires db.DigestFree(newToken)
      modifies db
      ensures db.Valid()
      ensures var inv := old(db.invites)[inviteId];
        r == (if inv.inviterId != actorId then Unauthorized
              else if inv.status != Pending then Unprocessable(OnlyPendingResendable)
              else if HasExpired(inv, now) then Unprocessable(ExpiredCreateNew)
              else Resent(Serialize(inviteId, inv.(lastSentAt := Some(now)))))
      ensures var inv := old(db.invites)[inviteId];
        db.invites == (if r == Unprocessable(ExpiredCreateNew) then old(db.invites)[inviteId := inv.(status := Expired, respondedAt := Some(now))]
                       else if r.Resent? then old(db.invites)[inviteId := inv.(tokenHash := DigestOf(newToken), lastSentAt := Some(now))]
                       else old(db.invites))
      ensures db.outbox == (if r.Resent? then old(db.outbox) + [Mail(old(db.invites)[inviteId].inviteeEmail, inviteId, BuildInviteUrl(config.urlBase, newToken))]
                            else old(db.outbox))
      ensures db.partnerships == old(db.partnerships) && db.nextInviteId == old(db.nextInviteId)
      ensures r.Resent? ==>
        && DigestUnused(db.invites, old(db.invites)[inviteId].tokenHash)
        && FindByDigest(db.invites, DigestOf(newToken)) == Some(inviteId)
    {
      var inv := db.invites[inviteId];
      if inv.inviterId != actorId {
        return Unauthorized;
      }
      if inv.status != Pending {
        return Unprocessable(OnlyPendingResendable);
      }
      if HasExpired(inv, now) {
        MarkResponded(inviteId, Expired, now);
        return Unprocessable(ExpiredCreateNew);
      }
      RotationRetiresToken(db.invites, inviteId, inv.tokenHash, newToken);
      UpdateKeepsWellFormed(db.Snapshot(), inviteId, inv.(tokenHash := DigestOf(newToken), lastSentAt := Some(now)),
                            db.users, db.goals, db.nextInviteId);
      db.invites := db.invites[inviteId := inv.(tokenHash := DigestOf(newToken), lastSentAt := Some(now))];
      assert db.invites == Rotate(old(db.invites), inviteId, newToken)[inviteId := db.invites[inviteId]];
      assert DigestUnused(db.invites, inv.tokenHash);
      assert db.invites[inviteId].tokenHash == DigestOf(newToken);
      db.outbox := db.outbox + [Mail(inv.inviteeEmail, inviteId, BuildInviteUrl(config.urlBase, newToken))];
      r := Resent(Serialize(inviteId, inv.(lastSentAt := Some(now))));
    }

    /** `cancelGoalPartnerInvite`: the inviter deletes a pending or unclaimed accepted invite. */
    method CancelGoalPartnerInvite(inviteId: int, actorId: int) returns (r: Response)
      requires db.Valid() && inviteId in db.invites
      modifies db
      ensures db.Valid()
      ensures var inv := old(db.invites)[inviteId];
        r == (if inv.inviterId != actorId then Unauthorized
              else if Cancellable(inv, old(db.partnerships)) then Deleted
              else Unprocessable(NotDeletable))
      ensures db.invites == (if r == Deleted then old(db.invites) - {inviteId} else old(db.invites))
      ensures db.partnerships == old(db.partnerships) && db.nextInviteId == old(db.nextInviteId) && db.outbox == old(db.outbox)
    {
      var inv := db.invites[inviteId];
      if inv.inviterId != actorId {
        return Unauthorized;
      }
      if !Cancellable(inv, db.partnerships) {
        return Unprocessable(NotDeletable);
      }
      DeleteKeepsWellFormed(db.Snapshot(), {inviteId}, db.users, db.goals, db.nextInviteId);
      db.invites := db.invites - {inviteId};
      r := Deleted;
    }

    /**
     * `resolveGoalPartnerInviteToken`: what the landing page shows for a
     * token. Looking a token up does not use it up: the digest stays.
     */
    method ResolveGoalPartnerInviteToken(token: string, now: Time) returns (r: Response)
      requires db.Valid()
      modifies db
      ensures db.Valid()
      ensures FindByDigest(old(db.invites), DigestOf(token)).None? ==> r == NotFound && unchanged(db)
      ensures var found := FindByDigest(old(db.invites), DigestOf(token));
        found.Some? ==>
          var id := found.value;
          var inv := old(db.invites)[id];
          var inv' := if inv.status == Pending && HasExpired(inv, now) then inv.(status := Expired, respondedAt := Some(now)) else inv;
          && db.invites == old(db.invites)[id := inv']
          && r == TokenResolved(Project(id, inv', db.goals, db.users, db.partnerships))
          && FindByDigest(db.invites, DigestOf(token)) == found
      ensures db.partnerships == old(db.partnerships) && db.nextInviteId == old(db.nextInviteId) && db.outbox == old(db.outbox)
    {
      var found := FindByDigest(db.invites, DigestOf(token));
      if found.None? {
        return NotFound;
      }
      var id := found.value;
      var inv := db.invites[id];
      if inv.status == Pending && HasExpired(inv, now) {
        MarkResponded(id, Expired, now);
      }
      assert db.invites[id].tokenHash == DigestOf(token);
      r := TokenResolved(Project(id, db.invites[id], db.goals, db.users, db.partnerships));
    }

    /**
     * `respondGoalPartnerInvite`: accept or decline through the token. A
     * pending invite's token is used up by any answer, including the
     * refusals for expiry and for a goal that found a partner meanwhile.
     */
    method RespondGoalPartnerInvite(token: string, decision: Decision, now: Time, newToken: string) returns (r: Response)
      requires db.Valid()
      requires db.DigestFree(newToken)
      modifies db
      ensures db.Valid()
      ensures FindByDigest(old(db.invites), DigestOf(token)).None? ==> r == NotFound && unchanged(db)
      ensures var found := FindByDigest(old(db.invites), DigestOf(token));
        found.Some? ==>
          var id := found.value;
          var inv := old(db.invites)[id];
          var refused := HasExpired(inv, now) || (decision == Accept && inv.goalId in old(db.partnerships));
          var answered := if inv.status != Pending then inv
                          else if refused then inv.(status := Expired, respondedAt := Some(now), tokenHash := DigestOf(newToken))
                          else inv.(status := if decision == Accept then Accepted else Declined,
                                    respondedAt := Some(now), tokenHash := DigestOf(newToken));
          && db.invites == old(db.invites)[id := answered]
          && r == (if inv.status != Pending then Unprocessable(NoLongerPending(inv.status))
                   else if HasExpired(inv, now) then Gone
                   else if refused then Conflict(NoLongerClaimable)
                   else Answered(Serialize(id, answered), decision))
      ensures var found := FindByDigest(old(db.invites), DigestOf(token));
        found.Some? && old(db.invites)[found.value].status == Pending ==>
          FindByDigest(db.invites, DigestOf(token)).None?
      ensures db.partnerships == old(db.partnerships) && db.nextInviteId == old(db.nextInviteId) && db.outbox == old(db.outbox)
    {
      var found := FindByDigest(db.invites, DigestOf(token));
      if found.None? {
        return NotFound;
      }
      var id := found.value;
      var inv := db.invites[id];
      if inv.status != Pending {
        return Unprocessable(NoLongerPending(inv.status));
      }
      if HasExpired(inv, now) {
        RespondAndRotate(id, Expired, now, newToken);
        return Gone;
      }
      if decision == Accept {
        if inv.goalId in db.partnerships {
          RespondAndRotate(id, Expired, now, newToken);
          return Conflict(NoLongerClaimable);
        }
        RespondAndRotate(id, Accepted, now, newToken);
        return Answered(Serialize(id, db.invites[id]), decision);
      }
      RespondAndRotate(id, Declined, now, newToken);
      r := Answered(Serialize(id, db.invites[id]), decision);
    }

    /**
     * Every answer to a pending invite: record the status and response time,
     * then rotate the digest, so the token that led here finds nothing.
     */
    method RespondAndRotate(id: int, s: Status, now: Time, newToken: string)
      requires db.Valid() && id in db.invites && db.DigestFree(newToken)
      requires Live(db.invites[id].(status := s, respondedAt := Some(now)), db.partnerships) ==> Live(db.invites[id], db.partnerships)
      modifies db
      ensures db.Valid()
      ensures db.invites == old(db.invites)[id := old(db.invites)[id].(status := s, respondedAt := Some(now), tokenHash := DigestOf(newToken))]
      ensures DigestUnused(db.invites, old(db.invites)[id].tokenHash)
      ensures db.partnerships == old(db.partnerships) && db.nextInviteId == old(db.nextInviteId) && db.outbox == old(db.outbox)
    {
      MarkResponded(id, s, now);
      RotateInviteTokenHash(id, newToken);
    }

    /** `$invite->update(['status' => s, 'responded_at' => now()])`. */
    method MarkResponded(id: int, s: Status, now: Time)
      requires db.Valid() && id in db.invites
      requires Live(db.invites[id].(status := s, respondedAt := Some(now)), db.partnerships) ==> Live(db.invites[id], db.partnerships)
      modifies db
      ensures db.Valid()
      ensures db.invites == old(db.invites)[id := old(db.invites)[id].(status := s, respondedAt := Some(now))]
      ensures db.partnerships == old(db.partnerships) && db.nextInviteId == old(db.nextInviteId) && db.outbox == old(db.outbox)
    {
      UpdateKeepsWellFormed(db.Snapshot(), id, db.invites[id].(status := s, respondedAt := Some(now)),
                            db.users, db.goals, db.nextInviteId);
      db.invites := db.invites[id := db.invites[id].(status := s, respondedAt := Some(now))];
    }

    /** `expirePendingInvitesForGoal`. */
    method ExpirePendingInvitesForGoal(goalId: int, now: Time)
      requires db.Valid()
      modifies db
      ensures db.Valid()
      ensures db.invites == SweepPending(old(db.invites), OneGoal(goalId), now)
      ensures db.partnerships == old(db.partnerships) && db.nextInviteId == old(db.nextInviteId) && db.outbox == old(db.outbox)
    {
      SetStatusKeepsWellFormed(db.Snapshot(), StalePendingIds(db.invites, OneGoal(goalId), now), Expired, now,
                               db.users, db.goals, db.nextInviteId);
      db.invites := SweepPending(db.invites, OneGoal(goalId), now);
    }

    /** `expireStaleAcceptedUnclaimedInvitesForGoal`, with the configured claim window. */
    method ExpireStaleAcceptedUnclaimedInvitesForGoal(goalId: int, now: Time)
      requires db.Valid()
      modifies db
      ensures db.Valid()
      ensures db.invites == SweepAcceptedUnclaimed(old(db.invites), db.partnerships, OneGoal(goalId), now, config.acceptedClaimDays)
      ensures db.partnerships == old(db.partnerships) && db.nextInviteId == old(db.nextInviteId) && db.outbox == old(db.outbox)
    {
      var cutoff := Cutoff(now, config.acceptedClaimDays);
      SetStatusKeepsWellFormed(db.Snapshot(), StaleAcceptedIds(db.invites, db.partnerships, OneGoal(goalId), cutoff), Expired, now,
                               db.users, db.goals, db.nextInviteId);
      db.invites := SweepAcceptedUnclaimed(db.invites, db.partnerships, OneGoal(goalId), now, config.acceptedClaimDays);
    }

    /** `rotateInviteTokenHash`: the row takes the digest of a fresh token. */
    method RotateInviteTokenHash(id: int, newToken: string)
      requires db.Valid() && id in db.invites && db.DigestFree(newToken)
      modifies db
      ensures db.Valid()
      ensures db.invites == Rotate(old(db.invites), id, newToken)
      ensures db.partnerships == old(db.partnerships) && db.nextInviteId == old(db.nextInviteId) && db.outbox == old(db.outbox)
    {
      UpdateKeepsWellFormed(db.Snapshot(), id, db.invites[id].(tokenHash := DigestOf(newToken)),
                            db.users, db.goals, db.nextInviteId);
      db.invites := Rotate(db.invites, id, newToken);
    }
  }
}
