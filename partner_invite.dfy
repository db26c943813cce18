/**
 * The partner-invite record (`GoalPartnerInvite`), the partnership record it
 * turns into, and the small pure rules that belong to the record itself:
 * expiry, e-mail normalisation, token digests and the serialised form.
 *
 * Time is a whole number of seconds; a nullable timestamp is an `Option<Time>`.
 */
module PartnerInvite {
  import opened Wrappers
  import opened Common

  type Time = int

  datatype Status = Pending | Accepted | Declined | Expired | Cancelled

  datatype Role = Cheerleader | DrillSergeant | Silent

  /**
   * The SHA-256 digest of a plaintext token. The model only relies on the
   * digest being a deterministic, injective function of the plaintext, which
   * a constructor is by construction; nothing reads the plaintext back.
   */
  datatype Digest = Sha256(string)

  function DigestOf(plain: string): Digest
  {
    Sha256(plain)
  }

  /** Two plaintexts with the same digest are the same plaintext. */
  lemma DigestInjective(a: string, b: string)
    ensures DigestOf(a) == DigestOf(b) <==> a == b
  {
  }

  /** One row of the invites table; its id is the key it is stored under. */
  datatype Invite = Invite(
    goalId: int,
    inviterId: int,
    inviteeId: Option<int>,
    inviteeEmail: string,
    status: Status,
    role: Role,
    notifyOnAlerts: bool,
    tokenHash: Digest,
    expiresAt: Option<Time>,
    lastSentAt: Option<Time>,
    respondedAt: Option<Time>,
    archivedAt: Option<Time>,
    createdAt: Time)

  datatype PartnershipStatus = Active | Paused

  /** One row of the partnerships table; its goal id is the key it is stored under. */
  datatype Partnership = Partnership(
    initiatorId: int,
    partnerId: int,
    status: PartnershipStatus,
    role: Role,
    pausedAt: Option<Time>)

  datatype User = User(name: string, email: string, emailVerifiedAt: Option<Time>)

  datatype Goal = Goal(ownerId: int, title: string)

  /**
   * `hasExpired`: an invite without an expiry never expires; otherwise it has
   * expired once its expiry lies strictly in the past.
   */
  function HasExpired(inv: Invite, now: Time): (b: bool)
    ensures inv.expiresAt.None? ==> !b
    ensures inv.expiresAt.Some? ==> (b <==> inv.expiresAt.value < now)
  {
    inv.expiresAt.Some? && inv.expiresAt.value < now
  }

  lemma NoExpiryNeverExpires(inv: Invite, now: Time)
    requires inv.expiresAt.None?
    ensures !HasExpired(inv, now)
  {
  }

  /** Once expired, an invite stays expired as time goes on. */
  lemma ExpiryIsPermanent(inv: Invite, now: Time, later: Time)
    requires now <= later
    ensures HasExpired(inv, now) ==> HasExpired(inv, later)
  {
  }

  /** Lower-casing of one character (ASCII letters only). */
  function LowerChar(c: char): (r: char)
    ensures 'A' <= c <= 'Z' ==> r as int == c as int + 32
    ensures !('A' <= c <= 'Z') ==> r == c
    ensures !('A' <= r <= 'Z')
  {
    if 'A' <= c <= 'Z' then (c as int + 32) as char else c
  }

  /** `Str::lower`, restricted to ASCII case folding. */
  function Lower(s: string): (r: string)
    ensures |r| == |s|
    ensures forall i :: 0 <= i < |s| ==> r[i] == LowerChar(s[i])
  {
    seq(|s|, i requires 0 <= i < |s| => LowerChar(s[i]))
  }

  predicate IsLowerCase(s: string)
  {
    forall i :: 0 <= i < |s| ==> !('A' <= s[i] <= 'Z')
  }

  /** Lower-casing yields a lower-case string and leaves one unchanged. */
  lemma LowerIsIdempotent(s: string)
    ensures IsLowerCase(Lower(s))
    ensures Lower(Lower(s)) == Lower(s)
    ensures IsLowerCase(s) ==> Lower(s) == s
  {
  }

  /**
   * The invite as serialised to JSON: every column except `token_hash`,
   * which the model lists as hidden.
   */
  datatype InviteJson = InviteJson(
    id: int,
    goalId: int,
    inviterId: int,
    inviteeId: Option<int>,
    inviteeEmail: string,
    status: Status,
    role: Role,
    notifyOnAlerts: bool,
    expiresAt: Option<Time>,
    lastSentAt: Option<Time>,
    respondedAt: Option<Time>,
    archivedAt: Option<Time>,
    createdAt: Time)

  function Serialize(id: int, inv: Invite): (j: InviteJson)
    ensures j.id == id && j.status == inv.status && j.inviteeEmail == inv.inviteeEmail
  {
    InviteJson(id, inv.goalId, inv.inviterId, inv.inviteeId, inv.inviteeEmail, inv.status,
               inv.role, inv.notifyOnAlerts, inv.expiresAt, inv.lastSentAt, inv.respondedAt,
               inv.archivedAt, inv.createdAt)
  }

  /**
   * The serialised form does not depend on the token digest, and it keeps
   * every other column: two rows serialise alike exactly when they differ at
   * most in their digest.
   */
  lemma SerializeHidesOnlyToken(id: int, a: Invite, b: Invite)
    ensures Serialize(id, a) == Serialize(id, b) <==> a == b.(tokenHash := a.tokenHash)
  {
  }

  /** The `inviter` relation: the user named by `inviter_user_id`, if that row exists. */
  function InviterOf(inv: Invite, users: map<int, User>): (u: Option<User>)
    ensures u.Some? <==> inv.inviterId in users
    ensures u.Some? ==> u.value == users[inv.inviterId]
  {
    if inv.inviterId in users then Some(users[inv.inviterId]) else None
  }

  /** The `invitee` relation: none while `invitee_user_id` is null. */
  function InviteeOf(inv: Invite, users: map<int, User>): (u: Option<User>)
    ensures inv.inviteeId.None? ==> u.None?
    ensures u.Some? <==> inv.inviteeId.Some? && inv.inviteeId.value in users
    ensures u.Some? ==> u.value == users[inv.inviteeId.value]
  {
    match inv.inviteeId
    case None => None
    case Some(id) => if id in users then Some(users[id]) else None
  }
}
