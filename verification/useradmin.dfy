/** The bulk actions of the user admin, FoundrCard/apps/users/admin.py, over
    the selected users. Each reports the number of rows its update matched. */
module UserAdmin {
  import UM = UserModel

  /** The outcome of an action: the selection afterwards and the count shown
      to the administrator. */
  datatype Outcome = Outcome(users: seq<UM.User>, updated: nat)

  datatype Flag = ActiveFlag | StaffFlag

  function WithFlag(u: UM.User, flag: Flag, value: bool): UM.User {
    match flag
    case ActiveFlag => u.(isActive := value)
    case StaffFlag => u.(isStaff := value)
  }

  /** `queryset.update(flag=value)`: every selected user gets the value, no
      other field changes, and every selected row is counted. */
  function SetAll(users: seq<UM.User>, flag: Flag, value: bool): (r: Outcome)
    ensures |r.users| == |users| && r.updated == |users|
    ensures flag == ActiveFlag ==> forall k :: 0 <= k < |users| ==>
      r.users[k].isActive == value && r.users[k].(isActive := users[k].isActive) == users[k]
    ensures flag == StaffFlag ==> forall k :: 0 <= k < |users| ==>
      r.users[k].isStaff == value && r.users[k].(isStaff := users[k].isStaff) == users[k]
  {
    Outcome(seq(|users|, k requires 0 <= k < |users| => WithFlag(users[k], flag, value)), |users|)
  }

  /** `activate_users`. */
  function Activate(users: seq<UM.User>): Outcome {
    SetAll(users, ActiveFlag, true)
  }

  /** `deactivate_users`. */
  function Deactivate(users: seq<UM.User>): Outcome {
    SetAll(users, ActiveFlag, false)
  }

  /** `grant_staff`. */
  function GrantStaff(users: seq<UM.User>): Outcome {
    SetAll(users, StaffFlag, true)
  }

  /** Each setting action is idempotent, and deactivating then activating
      restores exactly the users that were active. */
  lemma SetAllIdempotent(users: seq<UM.User>, flag: Flag, value: bool)
    ensures SetAll(SetAll(users, flag, value).users, flag, value) == SetAll(users, flag, value)
    ensures (forall k :: 0 <= k < |users| ==> users[k].isActive) ==> Activate(Deactivate(users).users).users == users
  {
    var once := SetAll(users, flag, value).users;
    assert SetAll(once, flag, value).users == once;
    if forall k :: 0 <= k < |users| ==> users[k].isActive {
      assert Activate(Deactivate(users).users).users == users;
    }
  }

  /** The selected users that are not superusers. */
  function NonSuperusers(users: seq<UM.User>): (n: nat)
    ensures n <= |users|
    decreases |users|
  {
    if users == [] then 0
    else NonSuperusers(users[..|users| - 1]) + (if users[|users| - 1].isSuperuser then 0 else 1)
  }

  /** Every selected user counts, unless it is a superuser. */
  lemma {:induction false} NonSuperusersAll(users: seq<UM.User>)
    ensures NonSuperusers(users) == |users| <==> forall k :: 0 <= k < |users| ==> !users[k].isSuperuser
    ensures NonSuperusers(users) == 0 <==> forall k :: 0 <= k < |users| ==> users[k].isSuperuser
    decreases |users|
  {
    if users != [] {
      var init := users[..|users| - 1];
      NonSuperusersAll(init);
      assert forall k :: 0 <= k < |init| ==> init[k] == users[k];
    }
  }

  /** `revoke_staff` leaves a user as it was if it is a superuser, and
      otherwise clears its staff flag. */
  function Revoked(u: UM.User): UM.User {
    if u.isSuperuser then u else u.(isStaff := false)
  }

  /** `revoke_staff`: superusers are excluded from the update, so they keep
      their staff access and are not counted; every other selected user loses
      it. */
  method RevokeStaff(users: seq<UM.User>) returns (r: Outcome)
    ensures |r.users| == |users|
    ensures forall k :: 0 <= k < |users| ==> r.users[k].isStaff == (users[k].isStaff && users[k].isSuperuser)
    ensures forall k :: 0 <= k < |users| ==> r.users[k].(isStaff := users[k].isStaff) == users[k]
    ensures r.updated == NonSuperusers(users)
  {
    var result: seq<UM.User> := [];
    var updated: nat := 0;
    var i := 0;
    while i < |users|
      invariant 0 <= i <= |users|
      invariant |result| == i
      invariant forall k :: 0 <= k < i ==> result[k] == Revoked(users[k])
      invariant updated == NonSuperusers(users[..i])
    {
      assert users[..i + 1][..i] == users[..i];
      result := result + [Revoked(users[i])];
      if !users[i].isSuperuser {
        updated := updated + 1;
      }
      i := i + 1;
    }
    assert users[..|users|] == users;
    r := Outcome(result, updated);
  }

  /** After revoking, only superusers are staff; a second revocation changes
      nothing. */
  lemma RevokedStaffAreSuperusers(u: UM.User)
    ensures Revoked(u).isStaff ==> Revoked(u).isSuperuser
    ensures Revoked(Revoked(u)) == Revoked(u)
    ensures Revoked(u).isSuperuser == u.isSuperuser
  {
  }
}
