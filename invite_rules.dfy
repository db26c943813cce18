/**
 * The invite and partnership tables as values, and the rules that the
 * controller and the registration service apply to them: token lookup and
 * rotation, the expiry sweeps, pruning, claiming, and the invariant that a goal
 * has at most one live invite.
 *
 * Each bulk `update`/`delete` query of the source is one function here; the
 * stateful methods elsewhere are specified by these functions.
 */
module InviteRules {
  import opened Wrappers
  import opened Common
  import opened PartnerInvite

  type Invites = map<int, Invite>

  /** Partnerships keyed by goal id, as the unique `goal_id` index demands. */
  type Partnerships = map<int, Partnership>

  datatype Tables = Tables(invites: Invites, partnerships: Partnerships)

  // ---------------------------------------------------------------------------
  // Choosing elements of finite sets
  // ---------------------------------------------------------------------------

  lemma NonEmptyHasElement(s: set<int>)
    requires s != {}
    ensures exists x :: x in s
  {
    if forall x :: x !in s {
      assert false;
    }
  }

  predicate IsLeast(m: int, s: set<int>)
  {
    m in s && forall x :: x in s ==> m <= x
  }

  lemma {:induction false} LeastExists(s: set<int>)
    requires s != {}
    ensures exists m :: IsLeast(m, s)
    decreases |s|
  {
    NonEmptyHasElement(s);
    var y :| y in s;
    var rest := s - {y};
    if rest == {} {
      assert s == {y};
      assert IsLeast(y, s);
    } else {
      LeastExists(rest);
      var m :| IsLeast(m, rest);
      assert s == rest + {y};
      if y < m {
        assert IsLeast(y, s);
      } else {
        assert IsLeast(m, s);
      }
    }
  }

  function Least(s: set<int>): (m: int)
    requires s != {}
    ensures IsLeast(m, s)
  {
    LeastExists(s);
    var m :| IsLeast(m, s); m
  }

  /** The ids of `s` in ascending order: what `orderBy('id')` yields. */
  function AscendingIds(s: set<int>): (r: seq<int>)
    ensures |r| == |s|
    ensures forall x :: x in s <==> x in r
    ensures forall i :: 0 <= i < |r| ==> r[i] in s
    ensures forall i, j :: 0 <= i < j < |r| ==> r[i] < r[j]
    decreases |s|
  {
    if s == {} then []
    else
      var m := Least(s);
      [m] + AscendingIds(s - {m})
  }

  /** `a` is listed no later than `b` when ordering by `created_at` descending (ties: larger id first). */
  predicate ListedBefore(invites: Invites, a: int, b: int)
    requires a in invites && b in invites
  {
    invites[a].createdAt > invites[b].createdAt
    || (invites[a].createdAt == invites[b].createdAt && a >= b)
  }

  predicate IsNewest(invites: Invites, m: int, s: set<int>)
    requires s <= invites.Keys
  {
    m in s && forall x :: x in s ==> ListedBefore(invites, m, x)
  }

  lemma {:induction false} NewestExists(invites: Invites, s: set<int>)
    requires s != {} && s <= invites.Keys
    ensures exists m :: IsNewest(invites, m, s)
    decreases |s|
  {
    NonEmptyHasElement(s);
    var y :| y in s;
    var rest := s - {y};
    if rest == {} {
      assert s == {y};
      assert IsNewest(invites, y, s);
    } else {
      NewestExists(invites, rest);
      var m :| IsNewest(invites, m, rest);
      assert s == rest + {y};
      if ListedBefore(invites, y, m) {
        assert IsNewest(invites, y, s);
      } else {
        assert IsNewest(invites, m, s);
      }
    }
  }

  function Newest(invites: Invites, s: set<int>): (m: int)
    requires s != {} && s <= invites.Keys
    ensures IsNewest(invites, m, s)
  {
    NewestExists(invites, s);
    var m :| IsNewest(invites, m, s); m
  }

  /** The ids of `s`, newest first: what `orderByDesc('created_at')` yields. */
  function NewestFirst(invites: Invites, s: set<int>): (r: seq<int>)
    requires s <= invites.Keys
    ensures |r| == |s|
    ensures forall i :: 0 <= i < |r| ==> r[i] in s
    ensures forall x :: x in s ==> x in r
    ensures forall i, j :: 0 <= i < j < |r| ==> r[i] != r[j]
    ensures forall i, j :: 0 <= i < j < |r| ==> invites[r[i]].createdAt >= invites[r[j]].createdAt
    decreases |s|
  {
    if s == {} then []
    else
      var m := Newest(invites, s);
      [m] + NewestFirst(invites, s - {m})
  }

  // ---------------------------------------------------------------------------
  // Token digests
  // ---------------------------------------------------------------------------

  /** The unique index on `token_hash`. */
  predicate UniqueDigests(invites: Invites)
  {
    forall i, j :: i in invites && j in invites && invites[i].tokenHash == invites[j].tokenHash ==> i == j
  }

  predicate DigestUnused(invites: Invites, h: Digest)
  {
    forall i :: i in invites ==> invites[i].tokenHash != h
  }

  /** `findInviteByPlainToken`, given the digest of the presented token. */
  function FindByDigest(invites: Invites, h: Digest): (r: Option<int>)
    requires UniqueDigests(invites)
    ensures r.Some? ==> r.value in invites && invites[r.value].tokenHash == h
    ensures r.None? <==> DigestUnused(invites, h)
  {
    if exists id :: id in invites && invites[id].tokenHash == h then
      var id :| id in invites && invites[id].tokenHash == h; Some(id)
    else
      None
  }

  /** `rotateInviteTokenHash`: the row now stores the digest of a new random token. */
  function Rotate(invites: Invites, id: int, newToken: string): (r: Invites)
    requires id in invites
    ensures r.Keys == invites.Keys
    ensures r[id].tokenHash == DigestOf(newToken) && r[id] == invites[id].(tokenHash := r[id].tokenHash)
    ensures forall j :: j in invites && j != id ==> r[j] == invites[j]
  {
    invites[id := invites[id].(tokenHash := DigestOf(newToken))]
  }

  /**
   * Single use: once the row a token found is rotated to an unused digest, that
   * token finds nothing, the newToken one finds the row, and digests stay unique.
   */
  lemma RotationRetiresToken(invites: Invites, id: int, h: Digest, newToken: string)
    requires UniqueDigests(invites) && id in invites
    requires invites[id].tokenHash == h
    requires DigestUnused(invites, DigestOf(newToken))
    ensures UniqueDigests(Rotate(invites, id, newToken))
    ensures FindByDigest(Rotate(invites, id, newToken), h).None?
    ensures FindByDigest(Rotate(invites, id, newToken), DigestOf(newToken)) == Some(id)
  {
    var r := Rotate(invites, id, newToken);
    assert DigestUnused(r, h);
    assert UniqueDigests(r);
    assert !DigestUnused(r, DigestOf(newToken)) by {
      assert r[id].tokenHash == DigestOf(newToken);
    }
  }

  // ---------------------------------------------------------------------------
  // Bulk status updates and the expiry sweeps
  // ---------------------------------------------------------------------------

  /** Which rows a bulk query looks at: one goal's, or every goal's. */
  datatype Scope = OneGoal(goalId: int) | AllGoals

  predicate InScope(inv: Invite, scope: Scope)
  {
    scope.AllGoals? || inv.goalId == scope.goalId
  }

  /** `update(['status' => s, 'responded_at' => now])` on the rows `ids`. */
  function SetStatus(invites: Invites, ids: set<int>, s: Status, now: Time): (r: Invites)
    ensures r.Keys == invites.Keys
    ensures forall id :: id in invites && id !in ids ==> r[id] == invites[id]
    ensures forall id :: id in invites && id in ids ==>
      r[id].status == s && r[id].respondedAt == Some(now) && r[id] == invites[id].(status := s, respondedAt := Some(now))
  {
    map id | id in invites :: if id in ids then invites[id].(status := s, respondedAt := Some(now)) else invites[id]
  }

  /** The filter of both pending sweeps: pending and `expires_at <= now`. */
  predicate StalePending(inv: Invite, now: Time)
  {
    inv.status == Pending && inv.expiresAt.Some? && inv.expiresAt.value <= now
  }

  function StalePendingIds(invites: Invites, scope: Scope, now: Time): set<int>
  {
    set id | id in invites && InScope(invites[id], scope) && StalePending(invites[id], now)
  }

  /** `expirePendingInvitesForGoal` (one goal) and `expireAllStalePendingInvites` (all goals). */
  function SweepPending(invites: Invites, scope: Scope, now: Time): (r: Invites)
    ensures r.Keys == invites.Keys
    ensures StalePendingIds(r, scope, now) == {}
    ensures forall id :: id in invites && !InScope(invites[id], scope) ==> r[id] == invites[id]
  {
    var r := SetStatus(invites, StalePendingIds(invites, scope, now), Expired, now);
    assert forall id :: id in r ==> !(InScope(r[id], scope) && StalePending(r[id], now));
    r
  }

  /**
   * The sweep compares with `<=` while `hasExpired` is strict, so a pending
   * invite whose expiry is exactly now is swept but not reported as expired.
   */
  lemma SweepIsWiderThanHasExpired(inv: Invite, now: Time)
    ensures inv.status == Pending && HasExpired(inv, now) ==> StalePending(inv, now)
    ensures inv.status == Pending && inv.expiresAt == Some(now) ==> StalePending(inv, now) && !HasExpired(inv, now)
  {
  }

  /** `now()->subDays(max(0, days))`. */
  function Cutoff(now: Time, days: int): (c: Time)
    ensures c <= now
  {
    now - SecondsPerDay * Max(0, days)
  }

  /** Accepted, not archived, its goal has no partnership, and `responded_at <= cutoff`. */
  predicate StaleAcceptedUnclaimed(inv: Invite, partnerships: Partnerships, cutoff: Time)
  {
    && inv.status == Accepted
    && inv.archivedAt.None?
    && inv.goalId !in partnerships
    && inv.respondedAt.Some? && inv.respondedAt.value <= cutoff
  }

  function StaleAcceptedIds(invites: Invites, partnerships: Partnerships, scope: Scope, cutoff: Time): set<int>
  {
    set id | id in invites && InScope(invites[id], scope) && StaleAcceptedUnclaimed(invites[id], partnerships, cutoff)
  }

  /** `expireStaleAcceptedUnclaimedInvitesForGoal` and `expireStaleAcceptedUnclaimedInvites`. */
  function SweepAcceptedUnclaimed(invites: Invites, partnerships: Partnerships, scope: Scope, now: Time, claimDays: int): (r: Invites)
    ensures r.Keys == invites.Keys
    ensures StaleAcceptedIds(r, partnerships, scope, Cutoff(now, claimDays)) == {}
    ensures forall id :: id in invites && !InScope(invites[id], scope) ==> r[id] == invites[id]
  {
    var cutoff := Cutoff(now, claimDays);
    var r := SetStatus(invites, StaleAcceptedIds(invites, partnerships, scope, cutoff), Expired, now);
    assert forall id :: id in r ==> !(InScope(r[id], scope) && StaleAcceptedUnclaimed(r[id], partnerships, cutoff));
    r
  }

  /**
   * The pending sweep changes exactly the stale pending rows in scope, and
   * each of those only in its status (now expired) and its response time.
   */
  lemma SweepPendingChangesExactlyStale(invites: Invites, scope: Scope, now: Time)
    ensures SweepPending(invites, scope, now).Keys == invites.Keys
    ensures forall id :: id in invites ==>
      var r := SweepPending(invites, scope, now);
      && (r[id] != invites[id] <==> InScope(invites[id], scope) && StalePending(invites[id], now))
      && (r[id] != invites[id] ==> r[id] == invites[id].(status := Expired, respondedAt := Some(now)))
  {
  }

  /** A second pending sweep at the same time changes nothing. */
  lemma SweepPendingIdempotent(invites: Invites, scope: Scope, now: Time)
    ensures SweepPending(SweepPending(invites, scope, now), scope, now) == SweepPending(invites, scope, now)
  {
  }

  /** The accepted sweep changes exactly the stale, unclaimed, unarchived accepted rows in scope. */
  lemma SweepAcceptedChangesExactlyStale(invites: Invites, partnerships: Partnerships, scope: Scope, now: Time, claimDays: int)
    ensures SweepAcceptedUnclaimed(invites, partnerships, scope, now, claimDays).Keys == invites.Keys
    ensures forall id :: id in invites ==>
      var r := SweepAcceptedUnclaimed(invites, partnerships, scope, now, claimDays);
      && (r[id] != invites[id] <==> InScope(invites[id], scope) && StaleAcceptedUnclaimed(invites[id], partnerships, Cutoff(now, claimDays)))
      && (r[id] != invites[id] ==> r[id] == invites[id].(status := Expired, respondedAt := Some(now)))
  {
  }

  /** A second accepted sweep at the same time and window changes nothing. */
  lemma SweepAcceptedIdempotent(invites: Invites, partnerships: Partnerships, scope: Scope, now: Time, claimDays: int)
    ensures var r := SweepAcceptedUnclaimed(invites, partnerships, scope, now, claimDays);
      SweepAcceptedUnclaimed(r, partnerships, scope, now, claimDays) == r
  {
  }

  /** Both sweeps for one goal, pending first, as listing and creating run them. */
  function SweepGoal(t: Tables, goalId: int, now: Time, claimDays: int): (r: Invites)
    ensures r.Keys == t.invites.Keys
  {
    SweepAcceptedUnclaimed(SweepPending(t.invites, OneGoal(goalId), now), t.partnerships, OneGoal(goalId), now, claimDays)
  }

  /**
   * After both sweeps for a goal no row of that goal is stale, pending or
   * accepted, and rows of other goals are untouched.
   */
  lemma SweepGoalLeavesNothingStale(t: Tables, goalId: int, now: Time, claimDays: int)
    ensures var r := SweepGoal(t, goalId, now, claimDays);
      forall id :: id in r ==>
        && (r[id].goalId == goalId ==> !StalePending(r[id], now) && !StaleAcceptedUnclaimed(r[id], t.partnerships, Cutoff(now, claimDays)))
        && (r[id].goalId != goalId ==> r[id] == t.invites[id])
  {
    var p := SweepPending(t.invites, OneGoal(goalId), now);
    SweepPendingChangesExactlyStale(t.invites, OneGoal(goalId), now);
    SweepAcceptedChangesExactlyStale(p, t.partnerships, OneGoal(goalId), now, claimDays);
  }

  /** Both sweeps for a goal keep every row on its goal and leave archive times alone. */
  lemma SweepGoalKeepsGoalAndArchive(t: Tables, goalId: int, now: Time, claimDays: int)
    ensures var r := SweepGoal(t, goalId, now, claimDays);
      forall id :: id in r ==> r[id].goalId == t.invites[id].goalId && r[id].archivedAt == t.invites[id].archivedAt
  {
    var p := SweepPending(t.invites, OneGoal(goalId), now);
    SweepPendingChangesExactlyStale(t.invites, OneGoal(goalId), now);
    SweepAcceptedChangesExactlyStale(p, t.partnerships, OneGoal(goalId), now, claimDays);
  }

  /** The rows listed for a goal: its invites that are not archived. */
  function VisibleIds(invites: Invites, goalId: int): (s: set<int>)
    ensures s <= invites.Keys
    ensures forall id :: id in s <==> id in invites && invites[id].goalId == goalId && invites[id].archivedAt.None?
  {
    set id | id in invites && invites[id].goalId == goalId && invites[id].archivedAt.None?
  }

  /** The first conflict check of `createGoalPartnerInvite`. */
  predicate PendingInviteExists(invites: Invites, goalId: int)
  {
    exists id :: id in invites && invites[id].goalId == goalId && invites[id].archivedAt.None? && invites[id].status == Pending
  }

  /** The second conflict check: an accepted, unarchived invite while the goal has no partnership. */
  predicate AcceptedUnclaimedInviteExists(t: Tables, goalId: int)
  {
    exists id :: id in t.invites && t.invites[id].goalId == goalId && t.invites[id].archivedAt.None?
      && t.invites[id].status == Accepted && goalId !in t.partnerships
  }

  // ---------------------------------------------------------------------------
  // Pruning resolved history
  // ---------------------------------------------------------------------------

  predicate Resolved(inv: Invite)
  {
    inv.status == Expired || inv.status == Cancelled
  }

  function ResolvedIds(invites: Invites): set<int>
  {
    set id | id in invites && Resolved(invites[id])
  }

  /** Accepted, not yet archived, and `responded_at <= cutoff`. */
  predicate Archivable(inv: Invite, cutoff: Time)
  {
    inv.status == Accepted && inv.archivedAt.None? && inv.respondedAt.Some? && inv.respondedAt.value <= cutoff
  }

  function ArchivableIds(invites: Invites, cutoff: Time): set<int>
  {
    set id | id in invites && Archivable(invites[id], cutoff)
  }

  /** `update(['archived_at' => now])` on the rows `ids`. */
  function Archive(invites: Invites, ids: set<int>, now: Time): (r: Invites)
    ensures r.Keys == invites.Keys
  {
    map id | id in invites :: if id in ids then invites[id].(archivedAt := Some(now)) else invites[id]
  }

  /** Archivable rows are accepted, so deleting the resolved rows keeps every one. */
  lemma DeletingResolvedKeepsArchivable(invites: Invites, cutoff: Time)
    ensures ArchivableIds(invites - ResolvedIds(invites), cutoff) == ArchivableIds(invites, cutoff)
  {
    var kept := invites - ResolvedIds(invites);
    forall id | id in invites && Archivable(invites[id], cutoff)
      ensures id in kept && kept[id] == invites[id]
    {
      assert !Resolved(invites[id]);
    }
  }

  datatype PruneCounts = PruneCounts(expiredOrCancelledDeleted: nat, acceptedArchived: nat)

  /** `pruneResolvedInvites`: delete expired/cancelled rows, then archive old accepted rows. */
  function Prune(invites: Invites, now: Time, retentionDays: int): (r: (Invites, PruneCounts))
    ensures r.0.Keys <= invites.Keys
    ensures ResolvedIds(r.0) == {} && ArchivableIds(r.0, Cutoff(now, retentionDays)) == {}
    ensures |invites| == |r.0| + r.1.expiredOrCancelledDeleted
    ensures r.1.acceptedArchived == |ArchivableIds(invites, Cutoff(now, retentionDays))|
  {
    var resolved := ResolvedIds(invites);
    var kept := invites - resolved;
    var cutoff := Cutoff(now, retentionDays);
    var old_ := ArchivableIds(kept, cutoff);
    var archived := Archive(kept, old_, now);
    assert forall id :: id in archived ==> !Resolved(archived[id]) && !Archivable(archived[id], cutoff);
    assert kept.Keys == invites.Keys - resolved;
    assert |kept| == |invites| - |resolved| by {
      assert resolved <= invites.Keys;
    }
    assert old_ <= kept.Keys;
    DeletingResolvedKeepsArchivable(invites, cutoff);
    (archived, PruneCounts(|resolved|, |old_|))
  }

  /**
   * What pruning keeps: every expired or cancelled row is gone whatever its
   * age; every other row stays, and only accepted rows past retention change,
   * in their archive time alone.
   */
  lemma PruneKeepsExactlyUnresolved(invites: Invites, now: Time, retentionDays: int)
    ensures var (r, _) := Prune(invites, now, retentionDays);
      && r.Keys == invites.Keys - ResolvedIds(invites)
      && forall id :: id in r ==>
           if Archivable(invites[id], Cutoff(now, retentionDays))
           then r[id] == invites[id].(archivedAt := Some(now))
           else r[id] == invites[id]
  {
  }

  /** A second prune with nothing new to do deletes and archives nothing. */
  lemma PruneIdempotent(invites: Invites, now: Time, retentionDays: int)
    ensures var (r, _) := Prune(invites, now, retentionDays);
      Prune(r, now, retentionDays) == (r, PruneCounts(0, 0))
  {
    var (r, _) := Prune(invites, now, retentionDays);
    assert r - {} == r;
    assert Archive(r, {}, now) == r;
  }

  // ---------------------------------------------------------------------------
  // Claiming
  // ---------------------------------------------------------------------------

  /**
   * The claim query: accepted, not archived, and addressed to this user by id,
   * or by lower-cased e-mail while no invitee id is recorded.
   */
  predicate ClaimMatches(inv: Invite, userId: int, normalizedEmail: string)
  {
    inv.status == Accepted && inv.archivedAt.None? && AddressedTo(inv, userId, normalizedEmail)
  }

  /** The invite names the user, or names no user and carries their e-mail. */
  predicate AddressedTo(inv: Invite, userId: int, normalizedEmail: string)
  {
    inv.inviteeId == Some(userId) || (inv.inviteeId.None? && Lower(inv.inviteeEmail) == normalizedEmail)
  }

  function MatchingIds(invites: Invites, userId: int, normalizedEmail: string): (s: set<int>)
    ensures s <= invites.Keys
    ensures forall id :: id in s <==>
      && id in invites
      && invites[id].status == Accepted
      && invites[id].archivedAt.None?
      && (|| invites[id].inviteeId == Some(userId)
          || (invites[id].inviteeId.None? && Lower(invites[id].inviteeEmail) == normalizedEmail))
  {
    set id | id in invites && ClaimMatches(invites[id], userId, normalizedEmail)
  }

  function PendingSiblingIds(invites: Invites, goalId: int, id: int): set<int>
  {
    set j | j in invites && invites[j].goalId == goalId && invites[j].status == Pending && j != id
  }

  /**
   * `claimAcceptedInviteForUser`: if the goal already has a partnership the
   * invite is deleted; otherwise the partnership is created, the invite
   * records its invitee, and the goal's other pending invites are cancelled.
   */
  function ClaimOne(t: Tables, id: int, userId: int, now: Time): (r: Tables)
    requires id in t.invites
    ensures r.invites.Keys <= t.invites.Keys
    ensures t.invites.Keys - {id} <= r.invites.Keys
    ensures forall j :: j in t.invites && j != id && t.invites[j].status != Pending ==> r.invites[j] == t.invites[j]
    ensures forall j :: j in r.invites ==>
      && r.invites[j].goalId == t.invites[j].goalId
      && r.invites[j].inviterId == t.invites[j].inviterId
      && r.invites[j].role == t.invites[j].role
      && r.invites[j].tokenHash == t.invites[j].tokenHash
    ensures id in r.invites ==> r.invites[id].inviteeId == Some(userId) && r.invites[id].status == Accepted
    ensures forall g :: g in t.partnerships ==> g in r.partnerships && r.partnerships[g] == t.partnerships[g]
    ensures r.partnerships.Keys == t.partnerships.Keys + {t.invites[id].goalId}
  {
    var inv := t.invites[id];
    if inv.goalId in t.partnerships then
      Tables(t.invites - {id}, t.partnerships)
    else
      var partnership := Partnership(inv.inviterId, userId, Active, inv.role, None);
      var claimed := inv.(inviteeId := Some(userId), status := Accepted,
                          respondedAt := if inv.respondedAt.Some? then inv.respondedAt else Some(now));
      var invites' := t.invites[id := claimed];
      Tables(SetStatus(invites', PendingSiblingIds(invites', inv.goalId, id), Cancelled, now),
             t.partnerships[inv.goalId := partnership])
  }

  /** What one claim does when the goal has no partnership yet. */
  lemma ClaimOneCreatesPartnership(t: Tables, id: int, userId: int, now: Time)
    requires id in t.invites && t.invites[id].goalId !in t.partnerships
    ensures var inv := t.invites[id];
      var r := ClaimOne(t, id, userId, now);
      && r.partnerships[inv.goalId] == Partnership(inv.inviterId, userId, Active, inv.role, None)
      && r.invites[id] == inv.(inviteeId := Some(userId), status := Accepted,
                              respondedAt := if inv.respondedAt.Some? then inv.respondedAt else Some(now))
      && r.invites.Keys == t.invites.Keys
      && forall j :: j in t.invites && j != id ==>
           if t.invites[j].goalId == inv.goalId && t.invites[j].status == Pending
           then r.invites[j] == t.invites[j].(status := Cancelled, respondedAt := Some(now))
           else r.invites[j] == t.invites[j]
  {
  }

  /** What one claim does when the goal already has a partnership: the invite goes, nothing else moves. */
  lemma ClaimOneOnPartneredGoalDeletes(t: Tables, id: int, userId: int, now: Time)
    requires id in t.invites && t.invites[id].goalId in t.partnerships
    ensures ClaimOne(t, id, userId, now) == Tables(t.invites - {id}, t.partnerships)
  {
  }

  predicate Distinct(ids: seq<int>)
  {
    forall i, j :: 0 <= i < j < |ids| ==> ids[i] != ids[j]
  }

  /** The `foreach` over the matched invites, in the order given. */
  function ClaimAll(t: Tables, ids: seq<int>, userId: int, now: Time): (r: Tables)
    requires Distinct(ids)
    requires forall i :: 0 <= i < |ids| ==> ids[i] in t.invites
    ensures r.invites.Keys <= t.invites.Keys
    ensures forall g :: g in t.partnerships ==> g in r.partnerships && r.partnerships[g] == t.partnerships[g]
    decreases |ids|
  {
    if ids == [] then t
    else ClaimAll(ClaimOne(t, ids[0], userId, now), ids[1..], userId, now)
  }

  /** One step of the fold: claim the first invite, then the rest. */
  lemma ClaimAllStep(t: Tables, ids: seq<int>, userId: int, now: Time)
    requires Distinct(ids) && ids != []
    requires forall i :: 0 <= i < |ids| ==> ids[i] in t.invites
    ensures Distinct(ids[1..])
    ensures forall i :: 0 <= i < |ids[1..]| ==> ids[1..][i] in ClaimOne(t, ids[0], userId, now).invites
    ensures ClaimAll(t, ids, userId, now) == ClaimAll(ClaimOne(t, ids[0], userId, now), ids[1..], userId, now)
  {
    var t1 := ClaimOne(t, ids[0], userId, now);
    forall i | 0 <= i < |ids[1..]|
      ensures ids[1..][i] in t1.invites
    {
      assert ids[1..][i] == ids[i + 1] != ids[0];
    }
  }

  /** Claiming only deletes rows, and leaves every unclaimed non-pending row as it was. */
  lemma {:induction false} ClaimAllFrame(t: Tables, ids: seq<int>, userId: int, now: Time)
    requires Distinct(ids)
    requires forall i :: 0 <= i < |ids| ==> ids[i] in t.invites
    ensures var r := ClaimAll(t, ids, userId, now);
      && r.invites.Keys <= t.invites.Keys
      && (forall j :: j in t.invites && j !in ids && t.invites[j].status != Pending ==> j in r.invites && r.invites[j] == t.invites[j])
      && (forall g :: g in t.partnerships ==> g in r.partnerships && r.partnerships[g] == t.partnerships[g])
    decreases |ids|
  {
    if ids != [] {
      var t1 := ClaimOne(t, ids[0], userId, now);
      ClaimAllFrame(t1, ids[1..], userId, now);
      forall j | j in t.invites && j !in ids && t.invites[j].status != Pending
        ensures j in t1.invites && j !in ids[1..] && t1.invites[j].status != Pending
      {
        assert j != ids[0];
      }
    }
  }

  /**
   * Every partnership that claiming creates is for the goal of one of the
   * claimed invites: its initiator is that invite's inviter, its partner the
   * claiming user, its role the invite's, active and not paused.
   */
  lemma {:induction false} ClaimAllCreatesOnlyForClaimedGoals(t: Tables, ids: seq<int>, userId: int, now: Time)
    requires Distinct(ids)
    requires forall i :: 0 <= i < |ids| ==> ids[i] in t.invites
    ensures var r := ClaimAll(t, ids, userId, now);
      forall g :: g in r.partnerships && g !in t.partnerships ==>
        exists i :: 0 <= i < |ids| && t.invites[ids[i]].goalId == g
          && r.partnerships[g] == Partnership(t.invites[ids[i]].inviterId, userId, Active, t.invites[ids[i]].role, None)
    decreases |ids|
  {
    if ids != [] {
      var t1 := ClaimOne(t, ids[0], userId, now);
      var r := ClaimAll(t, ids, userId, now);
      ClaimAllCreatesOnlyForClaimedGoals(t1, ids[1..], userId, now);
      ClaimAllFrame(t1, ids[1..], userId, now);
      forall g | g in r.partnerships && g !in t.partnerships
        ensures exists i :: (0 <= i < |ids| && t.invites[ids[i]].goalId == g
          && r.partnerships[g] == Partnership(t.invites[ids[i]].inviterId, userId, Active, t.invites[ids[i]].role, None))
      {
        if g in t1.partnerships {
          assert g == t.invites[ids[0]].goalId;
          assert r.partnerships[g] == t1.partnerships[g];
        } else {
          var k :| 0 <= k < |ids[1..]| && t1.invites[ids[1..][k]].goalId == g
            && r.partnerships[g] == Partnership(t1.invites[ids[1..][k]].inviterId, userId, Active, t1.invites[ids[1..][k]].role, None);
          assert ids[1..][k] == ids[k + 1];
        }
      }
    }
  }

  /**
   * After claiming, every claimed invite's goal has a partnership, and each
   * claimed invite is either deleted or names the claiming user as invitee.
   */
  lemma {:induction false} ClaimAllSettlesEveryMatch(t: Tables, ids: seq<int>, userId: int, now: Time)
    requires Distinct(ids)
    requires forall i :: 0 <= i < |ids| ==> ids[i] in t.invites && t.invites[ids[i]].status == Accepted
    ensures var r := ClaimAll(t, ids, userId, now);
      forall i :: 0 <= i < |ids| ==>
        && t.invites[ids[i]].goalId in r.partnerships
        && (ids[i] in r.invites ==> r.invites[ids[i]].inviteeId == Some(userId) && r.invites[ids[i]].status == Accepted)
    decreases |ids|
  {
    if ids != [] {
      var t1 := ClaimOne(t, ids[0], userId, now);
      var r := ClaimAll(t, ids, userId, now);
      assert forall i :: 1 <= i < |ids| ==> ids[i] != ids[0] && t1.invites[ids[i]] == t.invites[ids[i]];
      ClaimAllSettlesEveryMatch(t1, ids[1..], userId, now);
      ClaimAllFrame(t1, ids[1..], userId, now);
      assert ids[0] !in ids[1..];
      forall i | 0 <= i < |ids|
        ensures t.invites[ids[i]].goalId in r.partnerships
        ensures ids[i] in r.invites ==> r.invites[ids[i]].inviteeId == Some(userId) && r.invites[ids[i]].status == Accepted
      {
        if i > 0 {
          assert ids[1..][i - 1] == ids[i];
        }
      }
    }
  }

  /**
   * Claiming a set of accepted invites in ascending id order: each one's goal
   * ends with a partnership and each kept one names the user, existing
   * partnerships stay, and each new one comes from one of the claimed invites.
   */
  lemma ClaimAscendingSettlesSet(t: Tables, s: set<int>, userId: int, now: Time)
    requires forall id :: id in s ==> id in t.invites && t.invites[id].status == Accepted
    ensures var r := ClaimAll(t, AscendingIds(s), userId, now);
      && (forall id :: id in s ==>
            && t.invites[id].goalId in r.partnerships
            && (id in r.invites ==> r.invites[id].inviteeId == Some(userId) && r.invites[id].status == Accepted))
      && (forall g :: g in t.partnerships ==> g in r.partnerships && r.partnerships[g] == t.partnerships[g])
      && (forall g :: g in r.partnerships && g !in t.partnerships ==>
            exists id :: id in s && t.invites[id].goalId == g
              && r.partnerships[g] == Partnership(t.invites[id].inviterId, userId, Active, t.invites[id].role, None))
  {
    var ids := AscendingIds(s);
    var r := ClaimAll(t, ids, userId, now);
    ClaimAllSettlesEveryMatch(t, ids, userId, now);
    ClaimAllFrame(t, ids, userId, now);
    ClaimAllCreatesOnlyForClaimedGoals(t, ids, userId, now);
    forall id | id in s
      ensures t.invites[id].goalId in r.partnerships
      ensures id in r.invites ==> r.invites[id].inviteeId == Some(userId) && r.invites[id].status == Accepted
    {
      var k :| 0 <= k < |ids| && ids[k] == id;
    }
    forall g | g in r.partnerships && g !in t.partnerships
      ensures exists id :: (id in s && t.invites[id].goalId == g
        && r.partnerships[g] == Partnership(t.invites[id].inviterId, userId, Active, t.invites[id].role, None))
    {
      var k :| 0 <= k < |ids| && t.invites[ids[k]].goalId == g
        && r.partnerships[g] == Partnership(t.invites[ids[k]].inviterId, userId, Active, t.invites[ids[k]].role, None);
      assert ids[k] in s;
    }
  }

  // ---------------------------------------------------------------------------
  // At most one live invite per goal
  // ---------------------------------------------------------------------------

  /**
   * A live invite blocks a new invite for its goal: not archived, and pending,
   * or accepted while the goal has no partnership yet.
   */
  predicate Live(inv: Invite, partnerships: Partnerships)
  {
    inv.archivedAt.None? && (inv.status == Pending || (inv.status == Accepted && inv.goalId !in partnerships))
  }

  predicate AtMostOneLivePerGoal(t: Tables)
  {
    forall i, j ::
      i in t.invites && j in t.invites
      && Live(t.invites[i], t.partnerships) && Live(t.invites[j], t.partnerships)
      && t.invites[i].goalId == t.invites[j].goalId
      ==> i == j
  }

  /** Every live row of `u` was already a live row of `t`, for the same goal. */
  predicate LiveShrinks(t: Tables, u: Tables)
  {
    forall id :: id in u.invites && Live(u.invites[id], u.partnerships) ==>
      id in t.invites && Live(t.invites[id], t.partnerships) && u.invites[id].goalId == t.invites[id].goalId
  }

  lemma LiveShrinksKeepsAtMostOne(t: Tables, u: Tables)
    requires AtMostOneLivePerGoal(t) && LiveShrinks(t, u)
    ensures AtMostOneLivePerGoal(u)
  {
  }

  lemma LiveShrinksTransitive(t: Tables, u: Tables, v: Tables)
    requires LiveShrinks(t, u) && LiveShrinks(u, v)
    ensures LiveShrinks(t, v)
  {
  }

  /** Changing one row so that it is live only if it was live before, for the same goal. */
  lemma UpdateShrinksLive(t: Tables, id: int, inv: Invite)
    requires id in t.invites
    requires Live(inv, t.partnerships) ==> Live(t.invites[id], t.partnerships) && inv.goalId == t.invites[id].goalId
    ensures LiveShrinks(t, Tables(t.invites[id := inv], t.partnerships))
  {
  }

  lemma DeleteShrinksLive(t: Tables, ids: set<int>)
    ensures LiveShrinks(t, Tables(t.invites - ids, t.partnerships))
  {
  }

  /** Marking rows expired or cancelled never makes a row live. */
  lemma SetStatusShrinksLive(t: Tables, ids: set<int>, s: Status, now: Time)
    requires s != Pending && s != Accepted
    ensures LiveShrinks(t, Tables(SetStatus(t.invites, ids, s, now), t.partnerships))
  {
  }

  lemma PruneShrinksLive(t: Tables, now: Time, retentionDays: int)
    ensures LiveShrinks(t, Tables(Prune(t.invites, now, retentionDays).0, t.partnerships))
  {
  }

  /** A goal has no live invite: what the create conflict checks establish. */
  predicate NoLiveInvite(t: Tables, goalId: int)
  {
    forall id :: id in t.invites && t.invites[id].goalId == goalId ==> !Live(t.invites[id], t.partnerships)
  }

  /** The two conflict checks of creation together say exactly that the goal has no live invite. */
  lemma NoConflictIffNoLiveInvite(t: Tables, goalId: int)
    ensures NoLiveInvite(t, goalId) <==> !PendingInviteExists(t.invites, goalId) && !AcceptedUnclaimedInviteExists(t, goalId)
  {
    if !NoLiveInvite(t, goalId) {
      var id :| id in t.invites && t.invites[id].goalId == goalId && Live(t.invites[id], t.partnerships);
      if t.invites[id].status == Pending {
        assert PendingInviteExists(t.invites, goalId);
      } else {
        assert AcceptedUnclaimedInviteExists(t, goalId);
      }
    }
  }

  /** A new invite for a goal with no live invite keeps the invariant. */
  lemma InsertIntoQuietGoal(t: Tables, id: int, inv: Invite)
    requires AtMostOneLivePerGoal(t)
    requires id !in t.invites
    requires NoLiveInvite(t, inv.goalId)
    ensures AtMostOneLivePerGoal(Tables(t.invites[id := inv], t.partnerships))
  {
  }

  /**
   * Claiming one invite keeps at most one live invite per goal: once the goal
   * has its partnership no accepted invite of it is live, and its pending
   * invites are cancelled.
   */
  lemma ClaimOneShrinksLive(t: Tables, id: int, userId: int, now: Time)
    requires id in t.invites
    ensures LiveShrinks(t, ClaimOne(t, id, userId, now))
  {
    var r := ClaimOne(t, id, userId, now);
    var g := t.invites[id].goalId;
    forall j | j in r.invites && Live(r.invites[j], r.partnerships)
      ensures j in t.invites && Live(t.invites[j], t.partnerships) && r.invites[j].goalId == t.invites[j].goalId
    {
      if g !in t.partnerships {
        ClaimOneCreatesPartnership(t, id, userId, now);
        assert r.invites[j].goalId != g;
      }
    }
  }

  lemma {:induction false} ClaimAllShrinksLive(t: Tables, ids: seq<int>, userId: int, now: Time)
    requires Distinct(ids)
    requires forall i :: 0 <= i < |ids| ==> ids[i] in t.invites
    ensures LiveShrinks(t, ClaimAll(t, ids, userId, now))
    decreases |ids|
  {
    if ids == [] {
    } else {
      var t1 := ClaimOne(t, ids[0], userId, now);
      ClaimOneShrinksLive(t, ids[0], userId, now);
      ClaimAllShrinksLive(t1, ids[1..], userId, now);
      LiveShrinksTransitive(t, t1, ClaimAll(t1, ids[1..], userId, now));
    }
  }
}
