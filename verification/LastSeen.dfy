/**
 * Who may see when a user was last online (backend/src/utils/lastSeen.ts). Four implementations
 * of one rule: for a prefetched viewer, for a single pair, for a viewer's list of owners, and
 * for an owner's list of viewers.
 */
module LastSeen {
  import opened Base

  datatype Privacy = Everyone | Contacts | Nobody

  datatype Mode = Allow | Deny

  datatype Status = Pending | Accepted

  /** Contacts are (owner, target), exceptions (owner, viewer), blocks (owner, blocked). */
  datatype Db = Db(
    users: map<nat, Privacy>,
    contacts: map<(nat, nat), Status>,
    exceptions: map<(nat, nat), Mode>,
    blocks: set<(nat, nat)>
  )

  datatype User = User(id: nat, lastSeenAt: Option<int>, privacy: Privacy)

  // ---------------------------------------------------------------- queries

  predicate AcceptedContact(db: Db, owner: nat, target: nat) {
    (owner, target) in db.contacts && db.contacts[(owner, target)].Accepted?
  }

  function GetContactIds(db: Db, viewer: nat): set<nat> {
    set k | k in db.contacts && k.0 == viewer && db.contacts[k].Accepted? :: k.1
  }

  function GetLastSeenExceptions(db: Db, viewer: nat): map<nat, Mode> {
    map o | o in OwnersWithException(db, viewer) :: db.exceptions[(o, viewer)]
  }

  function OwnersWithException(db: Db, viewer: nat): (os: set<nat>)
    ensures forall o :: o in os <==> (o, viewer) in db.exceptions
  {
    var os := set k | k in db.exceptions && k.1 == viewer :: k.0;
    assert forall o :: (o, viewer) in db.exceptions ==> (o, viewer).0 in os;
    os
  }

  predicate Blocked(db: Db, a: nat, b: nat) {
    (a, b) in db.blocks || (b, a) in db.blocks
  }

  function GetBlockedIdsAmong(db: Db, user: nat, candidates: set<nat>): (bs: set<nat>)
    ensures forall b :: b in bs <==> b in candidates && Blocked(db, user, b)
  {
    set b | b in candidates && Blocked(db, user, b)
  }

  // ---------------------------------------------------------------- the rule

  /** The privacy rule without blocks; `contact` says how a contact is recognised. */
  predicate PrivacyAllows(db: Db, owner: nat, viewer: nat, privacy: Privacy, contact: bool) {
    if (owner, viewer) in db.exceptions then db.exceptions[(owner, viewer)].Allow?
    else privacy.Everyone? || (privacy.Contacts? && contact)
  }

  /** The rule as seen from the viewer, who looks for the owner among the viewer's own contacts. */
  predicate ViewerSide(db: Db, owner: nat, viewer: nat) {
    && owner in db.users
    && !Blocked(db, owner, viewer)
    && PrivacyAllows(db, owner, viewer, db.users[owner], AcceptedContact(db, viewer, owner))
  }

  /** The rule as seen from the owner, who looks for the viewer among the owner's own contacts. */
  predicate OwnerSide(db: Db, owner: nat, viewer: nat) {
    && owner in db.users
    && !Blocked(db, owner, viewer)
    && PrivacyAllows(db, owner, viewer, db.users[owner], AcceptedContact(db, owner, viewer))
  }

  // ---------------------------------------------------------------- the four implementations

  /** filterLastSeen: the `lastSeenAt` that the viewer gets. */
  function FilterLastSeen(
    viewer: nat, user: User, contactIds: set<nat>, exceptions: Option<map<nat, Mode>>): Option<int>
  {
    var visible :=
      if user.id == viewer then true
      else if exceptions.Some? && user.id in exceptions.value then exceptions.value[user.id].Allow?
      else if user.privacy.Nobody? then false
      else if user.privacy.Contacts? then user.id in contactIds
      else true;
    if visible then user.lastSeenAt else None
  }

  /** filterLastSeenSingle: one pair, with its own queries. */
  function FilterLastSeenSingle(db: Db, viewer: nat, user: User): Option<int> {
    if user.id == viewer then user.lastSeenAt
    else if (user.id, viewer) in db.exceptions then
      if db.exceptions[(user.id, viewer)].Allow? then user.lastSeenAt else None
    else if user.privacy.Everyone? then user.lastSeenAt
    else if user.privacy.Nobody? then None
    else if AcceptedContact(db, viewer, user.id) then user.lastSeenAt
    else None
  }

  /** filterVisibleOnlineOwners: one viewer, many owners. */
  method FilterVisibleOnlineOwners(db: Db, viewer: nat, ownerIds: set<nat>) returns (visible: set<nat>)
    ensures forall o :: o in visible <==> o in ownerIds && ViewerSide(db, o, viewer)
  {
    visible := {};
    if ownerIds == {} { return; }
    var owners := set o | o in ownerIds && o in db.users;
    var contactIds := GetContactIds(db, viewer);
    var exceptions := GetLastSeenExceptions(db, viewer);
    var blockedIds := GetBlockedIdsAmong(db, viewer, ownerIds);
    ContactIdsExact(db, viewer);
    var rest := owners;
    while rest != {}
      invariant rest <= owners
      invariant forall o :: o in visible <==> o in owners - rest && ViewerSide(db, o, viewer)
      decreases rest
    {
      var owner :| owner in rest;
      rest := rest - {owner};
      if owner !in blockedIds {
        var isVisible;
        if owner in exceptions {
          isVisible := exceptions[owner].Allow?;
        } else if db.users[owner].Nobody? {
          isVisible := false;
        } else if db.users[owner].Contacts? {
          isVisible := owner in contactIds;
        } else {
          isVisible := true;
        }
        if isVisible { visible := visible + {owner}; }
      }
    }
  }

  /** filterViewersForLastSeen: one owner, many viewers. */
  method FilterViewersForLastSeen(db: Db, owner: nat, viewerIds: set<nat>) returns (visible: set<nat>)
    ensures forall v :: v in visible <==> v in viewerIds && OwnerSide(db, owner, v)
  {
    if viewerIds == {} || owner !in db.users { return {}; }
    match db.users[owner] {
      case Everyone => visible := viewerIds;
      case Contacts => visible := set v | v in viewerIds && AcceptedContact(db, owner, v);
      case Nobody => visible := {};
    }
    ghost var byPrivacy := visible;
    var exceptions := set v | v in viewerIds && (owner, v) in db.exceptions;
    var rest := exceptions;
    while rest != {}
      invariant rest <= exceptions
      invariant forall v :: v in visible <==>
                  if v in exceptions - rest then db.exceptions[(owner, v)].Allow? else v in byPrivacy
      decreases rest
    {
      var v :| v in rest;
      rest := rest - {v};
      if db.exceptions[(owner, v)].Allow? { visible := visible + {v}; } else { visible := visible - {v}; }
    }
    ghost var byException := visible;
    var blockedIds := GetBlockedIdsAmong(db, owner, viewerIds);
    rest := blockedIds;
    while rest != {}
      invariant rest <= blockedIds
      invariant visible == byException - (blockedIds - rest)
      decreases rest
    {
      var id :| id in rest;
      rest := rest - {id};
      visible := visible - {id};
    }
  }

  // ---------------------------------------------------------------- agreement

  lemma ContactIdsExact(db: Db, viewer: nat)
    ensures forall o :: o in GetContactIds(db, viewer) <==> AcceptedContact(db, viewer, o)
  {
    forall o | AcceptedContact(db, viewer, o)
      ensures o in GetContactIds(db, viewer)
    {
      assert (viewer, o).1 in GetContactIds(db, viewer);
    }
  }

  /** Accepting a contact makes both sides contacts. */
  ghost predicate ContactsSymmetric(db: Db) {
    forall a, b :: AcceptedContact(db, a, b) <==> AcceptedContact(db, b, a)
  }

  /**
   * Viewer side and owner side accept the same pair unless it is exactly the contact relation that
   * decides (no block, no exception, privacy set to contacts) and the two directions of it differ.
   */
  lemma SidesAgreeExactly(db: Db, owner: nat, viewer: nat)
    ensures (ViewerSide(db, owner, viewer) <==> OwnerSide(db, owner, viewer)) <==>
            (owner in db.users && !Blocked(db, owner, viewer) && (owner, viewer) !in db.exceptions
               && db.users[owner].Contacts?
             ==> AcceptedContact(db, viewer, owner) == AcceptedContact(db, owner, viewer))
  {
  }

  /** With symmetric contacts a broadcast reaches exactly the viewers whose own query would show the owner. */
  lemma SidesAgree(db: Db, owner: nat, viewer: nat)
    requires ContactsSymmetric(db)
    ensures ViewerSide(db, owner, viewer) <==> OwnerSide(db, owner, viewer)
  {
    assert AcceptedContact(db, viewer, owner) <==> AcceptedContact(db, owner, viewer);
  }

  /** The prefetching filter and the single filter give the same answer for every pair. */
  lemma SingleAgreesWithBatch(db: Db, viewer: nat, user: User)
    ensures FilterLastSeenSingle(db, viewer, user) ==
            FilterLastSeen(viewer, user, GetContactIds(db, viewer), Some(GetLastSeenExceptions(db, viewer)))
  {
    ContactIdsExact(db, viewer);
  }

  /**
   * Between distinct users, the last-seen time is shown exactly when online status is, unless there is
   * a block, a time to show, and a privacy rule that would show it: the last-seen filters ignore blocks.
   */
  lemma LastSeenMatchesOnline(db: Db, viewer: nat, user: User)
    requires user.id != viewer && user.id in db.users && db.users[user.id] == user.privacy
    ensures FilterLastSeenSingle(db, viewer, user) ==
            (if ViewerSide(db, user.id, viewer) then user.lastSeenAt else None)
            <==>
            || !Blocked(db, user.id, viewer) || user.lastSeenAt.None?
            || !PrivacyAllows(db, user.id, viewer, user.privacy, AcceptedContact(db, viewer, user.id))
  {
  }

  /** A block changes neither last-seen filter, and hides online status from both sides. */
  lemma BlockHidesOnlineOnly(db: Db, viewer: nat, user: User)
    requires user.id != viewer && Blocked(db, user.id, viewer)
    ensures !ViewerSide(db, user.id, viewer) && !OwnerSide(db, user.id, viewer)
    ensures FilterLastSeenSingle(db, viewer, user) ==
            FilterLastSeenSingle(db.(blocks := {}), viewer, user)
  {
  }

  /** They do differ: a user whose last-seen time is for everyone has blocked the viewer. */
  lemma BlockedViewerSeesTime(owner: nat, viewer: nat, at: int)
    requires owner != viewer
    ensures var db := Db(map[owner := Everyone, viewer := Everyone], map[], map[], {(owner, viewer)});
            && FilterLastSeenSingle(db, viewer, User(owner, Some(at), Everyone)) == Some(at)
            && !ViewerSide(db, owner, viewer)
  {
  }

  /** The owner's privacy lets the viewer in: an exception decides, then the setting, then the viewer's contacts. */
  predicate LetsIn(db: Db, owner: nat, viewer: nat, privacy: Privacy) {
    || ((owner, viewer) in db.exceptions && db.exceptions[(owner, viewer)] == Allow)
    || ((owner, viewer) !in db.exceptions && privacy == Everyone)
    || ((owner, viewer) !in db.exceptions && privacy == Contacts
        && (viewer, owner) in db.contacts && db.contacts[(viewer, owner)] == Accepted)
  }

  /** One's own time is always shown, another's to those its privacy lets in; online status to them unless blocked. */
  lemma ShownExactly(db: Db, viewer: nat, user: User)
    ensures FilterLastSeenSingle(db, viewer, user) ==
            if user.id == viewer || LetsIn(db, user.id, viewer, user.privacy) then user.lastSeenAt else None
    ensures user.id in db.users ==>
              (ViewerSide(db, user.id, viewer) <==>
                 && LetsIn(db, user.id, viewer, db.users[user.id])
                 && (user.id, viewer) !in db.blocks && (viewer, user.id) !in db.blocks)
  {
  }
}
