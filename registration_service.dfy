/**
 * `PartnerInviteRegistrationService`: the work done for a user once their
 * e-mail address is verified (claiming the invites they accepted), and the
 * scheduled upkeep of the invites table (the two expiry sweeps and pruning).
 */
module PartnerInviteRegistration {
  import opened Wrappers
  import opened PartnerInvite
  import opened InviteRules
  import opened InviteStore

  /** The tables after both global sweeps, as claiming begins. */
  function SweepForClaim(t: Tables, now: Time, claimDays: int): (r: Tables)
    ensures r.partnerships == t.partnerships && r.invites.Keys == t.invites.Keys
  {
    Tables(SweepAcceptedUnclaimed(SweepPending(t.invites, AllGoals, now), t.partnerships, AllGoals, now, claimDays),
           t.partnerships)
  }

  /**
   * What claiming achieves for a verified user: every invite addressed to
   * them ends with a partnership on its goal and is either deleted or names
   * them; partnerships that existed stay as they were, and each new one is
   * for a matched invite's goal, initiated by its inviter with its role.
   */
  lemma ClaimSettlesEveryMatch(t: Tables, userId: int, email: string, now: Time, claimDays: int)
    ensures var swept := SweepForClaim(t, now, claimDays);
      var matched := MatchingIds(swept.invites, userId, email);
      var r := ClaimAll(swept, AscendingIds(matched), userId, now);
      && (forall id :: id in matched ==>
            && swept.invites[id].goalId in r.partnerships
            && (id in r.invites ==> r.invites[id].inviteeId == Some(userId) && r.invites[id].status == Accepted))
      && (forall g :: g in t.partnerships ==> g in r.partnerships && r.partnerships[g] == t.partnerships[g])
      && (forall g :: g in r.partnerships && g !in t.partnerships ==>
            exists id :: id in matched && swept.invites[id].goalId == g
              && r.partnerships[g] == Partnership(swept.invites[id].inviterId, userId, Active, swept.invites[id].role, None))
  {
    var swept := SweepForClaim(t, now, claimDays);
    ClaimAscendingSettlesSet(swept, MatchingIds(swept.invites, userId, email), userId, now);
  }

  /**
   * Claiming creates partnerships only for the user's own invites: each new
   * one is on the goal of an accepted, unarchived invite that names the user,
   * or that names no user and carries their lower-cased e-mail.
   */
  lemma ClaimCreatesOnlyForAddressee(t: Tables, userId: int, email: string, now: Time, claimDays: int)
    ensures var swept := SweepForClaim(t, now, claimDays);
      var r := ClaimAll(swept, AscendingIds(MatchingIds(swept.invites, userId, email)), userId, now);
      forall g :: g in r.partnerships && g !in t.partnerships ==>
        exists id :: id in swept.invites && swept.invites[id].goalId == g
          && swept.invites[id].status == Accepted && swept.invites[id].archivedAt.None?
          && AddressedTo(swept.invites[id], userId, email)
  {
    var swept := SweepForClaim(t, now, claimDays);
    ClaimMatchesCreatesOnlyForAddressee(swept, userId, email, now);
  }

  /** The same, for the claim query and fold over any tables. */
  lemma ClaimMatchesCreatesOnlyForAddressee(t: Tables, userId: int, email: string, now: Time)
    ensures var r := ClaimAll(t, AscendingIds(MatchingIds(t.invites, userId, email)), userId, now);
      forall g :: g in r.partnerships && g !in t.partnerships ==>
        exists id :: id in t.invites && t.invites[id].goalId == g
          && t.invites[id].status == Accepted && t.invites[id].archivedAt.None?
          && AddressedTo(t.invites[id], userId, email)
  {
    var ids := AscendingIds(MatchingIds(t.invites, userId, email));
    var r := ClaimAll(t, ids, userId, now);
    ClaimAllCreatesOnlyForClaimedGoals(t, ids, userId, now);
    forall g | g in r.partnerships && g !in t.partnerships
      ensures exists id :: (id in t.invites && t.invites[id].goalId == g
        && t.invites[id].status == Accepted && t.invites[id].archivedAt.None?
        && AddressedTo(t.invites[id], userId, email))
    {
      var i :| 0 <= i < |ids| && t.invites[ids[i]].goalId == g;
      assert ids[i] in MatchingIds(t.invites, userId, email);
    }
  }

  /**
   * Claiming never takes an invite that names another user: an accepted
   * invite addressed to another user id is left as the sweeps left it.
   */
  lemma ClaimLeavesOtherUsersInvites(t: Tables, userId: int, email: string, now: Time, claimDays: int)
    ensures var swept := SweepForClaim(t, now, claimDays);
      var r := ClaimAll(swept, AscendingIds(MatchingIds(swept.invites, userId, email)), userId, now);
      forall id ::
        id in swept.invites && swept.invites[id].status == Accepted
        && swept.invites[id].inviteeId.Some? && swept.invites[id].inviteeId != Some(userId)
        ==> id in r.invites && r.invites[id] == swept.invites[id]
  {
    ClaimMatchesLeavesOtherUsersInvites(SweepForClaim(t, now, claimDays), userId, email, now);
  }

  /** The same, for the claim query and fold over any tables. */
  lemma ClaimMatchesLeavesOtherUsersInvites(t: Tables, userId: int, email: string, now: Time)
    ensures var r := ClaimAll(t, AscendingIds(MatchingIds(t.invites, userId, email)), userId, now);
      forall id ::
        id in t.invites && t.invites[id].status == Accepted
        && t.invites[id].inviteeId.Some? && t.invites[id].inviteeId != Some(userId)
        ==> id in r.invites && r.invites[id] == t.invites[id]
  {
    var matched := MatchingIds(t.invites, userId, email);
    var ids := AscendingIds(matched);
    ClaimAllFrame(t, ids, userId, now);
    forall id | id in t.invites && t.invites[id].status == Accepted
        && t.invites[id].inviteeId.Some? && t.invites[id].inviteeId != Some(userId)
      ensures id !in ids && t.invites[id].status != Pending
    {
      assert !AddressedTo(t.invites[id], userId, email);
      assert id !in matched;
    }
  }

  class PartnerInviteRegistrationService {
    const db: Database
    /** `services.partner_invites.accepted_claim_days` (7 unless configured). */
    const acceptedClaimDays: int

    constructor (db: Database, acceptedClaimDays: int)
      ensures this.db == db && this.acceptedClaimDays == acceptedClaimDays
    {
      this.db := db;
      this.acceptedClaimDays := acceptedClaimDays;
    }

    /**
     * `claimAcceptedInvitesForUser`: nothing happens for an unverified user.
     * Otherwise, after both global sweeps, every accepted, unarchived invite
     * addressed to the user is claimed in ascending id order.
     */
    method ClaimAcceptedInvitesForUser(userId: int, user: User, now: Time)
      requires db.Valid()
      modifies db
      ensures db.Valid()
      ensures user.emailVerifiedAt.None? ==> unchanged(db)
      ensures user.emailVerifiedAt.Some? ==>
        var swept := SweepForClaim(old(db.Snapshot()), now, acceptedClaimDays);
        db.Snapshot() == ClaimAll(swept, AscendingIds(MatchingIds(swept.invites, userId, Lower(user.email))), userId, now)
      ensures db.nextInviteId == old(db.nextInviteId) && db.outbox == old(db.outbox)
    {
      if user.emailVerifiedAt.None? {
        return;
      }
      var email := Lower(user.email);
      var expired := ExpireAllStalePendingInvites(now);
      expired := ExpireStaleAcceptedUnclaimedInvites(None, now);
      var ids := AscendingIds(MatchingIds(db.invites, userId, email));
      ClaimEach(ids, userId, now);
    }

    /** The `foreach` over the matched invites. */
    method ClaimEach(ids: seq<int>, userId: int, now: Time)
      requires db.Valid()
      requires Distinct(ids)
      requires forall i :: 0 <= i < |ids| ==> ids[i] in db.invites
      modifies db
      ensures db.Valid()
      ensures db.Snapshot() == ClaimAll(old(db.Snapshot()), ids, userId, now)
      ensures db.nextInviteId == old(db.nextInviteId) && db.outbox == old(db.outbox)
    {
      for i := 0 to |ids|
        invariant db.Valid()
        invariant Distinct(ids[i..])
        invariant forall k :: 0 <= k < |ids[i..]| ==> ids[i..][k] in db.invites
        invariant ClaimAll(db.Snapshot(), ids[i..], userId, now) == ClaimAll(old(db.Snapshot()), ids, userId, now)
        invariant db.nextInviteId == old(db.nextInviteId) && db.outbox == old(db.outbox)
      {
        ClaimAllStep(db.Snapshot(), ids[i..], userId, now);
        assert ids[i..][0] == ids[i] && ids[i..][1..] == ids[i + 1..];
        ClaimAcceptedInviteForUser(ids[i], userId, now);
      }
      assert ids[|ids|..] == [];
    }

    /** `expireAllStalePendingInvites`: returns how many rows it expired. */
    method ExpireAllStalePendingInvites(now: Time) returns (count: nat)
      requires db.Valid()
      modifies db
      ensures db.Valid()
      ensures db.invites == SweepPending(old(db.invites), AllGoals, now)
      ensures count == |StalePendingIds(old(db.invites), AllGoals, now)|
      ensures db.partnerships == old(db.partnerships) && db.nextInviteId == old(db.nextInviteId) && db.outbox == old(db.outbox)
    {
      var ids := StalePendingIds(db.invites, AllGoals, now);
      SetStatusKeepsWellFormed(db.Snapshot(), ids, Expired, now, db.users, db.goals, db.nextInviteId);
      db.invites := SetStatus(db.invites, ids, Expired, now);
      count := |ids|;
    }

    /**
     * `expireStaleAcceptedUnclaimedInvites`: the claim window is the given
     * number of days, or the configured one when none is given.
     */
    method ExpireStaleAcceptedUnclaimedInvites(claimDays: Option<int>, now: Time) returns (count: nat)
      requires db.Valid()
      modifies db
      ensures db.Valid()
      ensures var days := if claimDays.Some? then claimDays.value else acceptedClaimDays;
        && db.invites == SweepAcceptedUnclaimed(old(db.invites), db.partnerships, AllGoals, now, days)
        && count == |StaleAcceptedIds(old(db.invites), db.partnerships, AllGoals, Cutoff(now, days))|
      ensures db.partnerships == old(db.partnerships) && db.nextInviteId == old(db.nextInviteId) && db.outbox == old(db.outbox)
    {
      var days := if claimDays.Some? then claimDays.value else acceptedClaimDays;
      var ids := StaleAcceptedIds(db.invites, db.partnerships, AllGoals, Cutoff(now, days));
      SetStatusKeepsWellFormed(db.Snapshot(), ids, Expired, now, db.users, db.goals, db.nextInviteId);
      db.invites := SetStatus(db.invites, ids, Expired, now);
      count := |ids|;
    }

    /**
     * `pruneResolvedInvites`: deletes every expired or cancelled invite, then
     * archives accepted invites answered before the retention cutoff, and
     * reports both counts.
     */
    method PruneResolvedInvites(retentionDays: int, now: Time) returns (counts: PruneCounts)
      requires db.Valid()
      modifies db
      ensures db.Valid()
      ensures (db.invites, counts) == Prune(old(db.invites), now, retentionDays)
      ensures db.partnerships == old(db.partnerships) && db.nextInviteId == old(db.nextInviteId) && db.outbox == old(db.outbox)
    {
      PruneKeepsWellFormed(db.Snapshot(), now, retentionDays, db.users, db.goals, db.nextInviteId);
      var cutoff := Cutoff(now, retentionDays);
      var deleted := ResolvedIds(db.invites);
      db.invites := db.invites - deleted;
      var archived := ArchivableIds(db.invites, cutoff);
      db.invites := Archive(db.invites, archived, now);
      counts := PruneCounts(|deleted|, |archived|);
    }

    /**
     * `claimAcceptedInviteForUser`: on a goal that already has a partnership
     * the invite is deleted; otherwise the partnership is created, the invite
     * records the user, and the goal's other pending invites are cancelled.
     */
    method ClaimAcceptedInviteForUser(id: int, userId: int, now: Time)
      requires db.Valid() && id in db.invites
      modifies db
      ensures db.Valid()
      ensures db.Snapshot() == ClaimOne(old(db.Snapshot()), id, userId, now)
      ensures db.nextInviteId == old(db.nextInviteId) && db.outbox == old(db.outbox)
    {
      ClaimOneKeepsWellFormed(db.Snapshot(), id, userId, now, db.users, db.goals, db.nextInviteId);
      var inv := db.invites[id];
      if inv.goalId in db.partnerships {
        db.invites := db.invites - {id};
        return;
      }
      db.partnerships := db.partnerships[inv.goalId := Partnership(inv.inviterId, userId, Active, inv.role, None)];
      db.invites := db.invites[id := inv.(inviteeId := Some(userId), status := Accepted,
                                          respondedAt := if inv.respondedAt.Some? then inv.respondedAt else Some(now))];
      db.invites := SetStatus(db.invites, PendingSiblingIds(db.invites, inv.goalId, id), Cancelled, now);
    }
  }
}
