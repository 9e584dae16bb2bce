/**
 * The roster service: classes, their membership table (a user enrolled in
 * a class as 'teacher' or 'student'), the class details view and the list
 * of users still available for assignment. The classes and memberships
 * are the fields of a Roster; the identity service's user table is a
 * parameter.
 */
module Roster {
  import opened Common
  import opened Collections

  // ---- the request schemas ----

  datatype ClassInput = ClassInput(name: string, level: string)

  /** Name and level are both required and non-empty. */
  predicate ValidClass(x: ClassInput) {
    |x.name| >= 1 && |x.level| >= 1
  }

  /** The body of an add-member request; its class_id is validated but the path id is the one used. */
  datatype MemberInput = MemberInput(class_id: string, user_id: string, role: string)

  predicate IsMemberRole(role: string) {
    role == "teacher" || role == "student"
  }

  predicate ValidMember(x: MemberInput) {
    IsUuid(x.class_id) && IsUuid(x.user_id) && IsMemberRole(x.role)
  }

  /**
   * The role check, spelled as in the handler: refused when a teacher
   * membership names a non-teacher or a student membership a non-student.
   * For the two admitted roles that is exactly role equality.
   */
  function RoleMatches(role: string, account: string): (ok: bool)
    requires IsMemberRole(role)
    ensures ok <==> role == account
  {
    !((role == "teacher" && account != "teacher") || (role == "student" && account != "student"))
  }

  // ---- invariants of the two tables ----

  predicate ClassIdsUnique(classes: seq<ClassRow>) {
    forall i, j :: 0 <= i < j < |classes| ==> classes[i].id != classes[j].id
  }

  predicate SamePair(m: Member, classId: string, userId: string) {
    m.class_id == classId && m.user_id == userId
  }

  /** The unique constraint on (class_id, user_id). */
  predicate PairsUnique(members: seq<Member>) {
    forall i, j :: 0 <= i < j < |members| ==> !SamePair(members[i], members[j].class_id, members[j].user_id)
  }

  predicate HasPair(members: seq<Member>, classId: string, userId: string) {
    exists m :: m in members && SamePair(m, classId, userId)
  }

  /** Every membership names an existing class. */
  predicate ClassesExist(classes: seq<ClassRow>, members: seq<Member>) {
    forall m :: m in members ==> FindClass(classes, m.class_id).Some?
  }

  // ---- GET /classes/:id ----

  /** A membership row joined with its user: the membership role and the account's e-mail and role. */
  datatype MemberView = MemberView(class_id: string, user_id: string, role: string, email: string, user_role: string)

  function Joined(m: Member, u: User): MemberView {
    MemberView(m.class_id, m.user_id, m.role, u.email, u.role)
  }

  /** The memberships of a class whose user exists, joined with that user, in table order. */
  function ClassMembers(users: seq<User>, members: seq<Member>, classId: string): (r: seq<MemberView>)
    ensures forall v :: v in r ==>
      && Member(v.class_id, v.user_id, v.role) in members
      && v.class_id == classId
      && FindUser(users, v.user_id) == Some(User(v.user_id, v.email, v.user_role))
    ensures forall m :: m in members && m.class_id == classId && FindUser(users, m.user_id).Some? ==>
      Joined(m, FindUser(users, m.user_id).value) in r
  {
    if members == [] then []
    else
      var init, m := members[..|members| - 1], members[|members| - 1];
      assert members == init + [m];
      var rest := ClassMembers(users, init, classId);
      if m.class_id == classId && FindUser(users, m.user_id).Some? then
        rest + [Joined(m, FindUser(users, m.user_id).value)]
      else rest
  }

  /** ORDER BY cm.role, u.email */
  predicate RoleThenEmail(a: MemberView, b: MemberView) {
    (StrLeq(a.role, b.role) && a.role != b.role) || (a.role == b.role && StrLeq(a.email, b.email))
  }

  lemma RoleThenEmailIsTotalPreorder()
    ensures TotalPreorder(RoleThenEmail)
  {
    forall a, b ensures RoleThenEmail(a, b) || RoleThenEmail(b, a) {
      StrLeqTotal(a.role, b.role);
      StrLeqTotal(a.email, b.email);
    }
    forall a, b, c | RoleThenEmail(a, b) && RoleThenEmail(b, c) ensures RoleThenEmail(a, c) {
      if a.role == b.role == c.role {
        StrLeqTransitive(a.email, b.email, c.email);
      } else {
        StrLeqTotal(a.role, a.role);
        StrLeqTotal(b.role, b.role);
        StrLeqTransitive(a.role, b.role, c.role);
        if a.role == c.role {
          StrLeqAntisymmetric(a.role, b.role);
        }
      }
    }
  }

  datatype ClassDetail = ClassDetail(classRow: ClassRow, members: seq<MemberView>)

  /** 404 for an unknown class; otherwise the class and its joined members ordered by role then e-mail. */
  function ClassDetails(classes: seq<ClassRow>, users: seq<User>, members: seq<Member>, id: string)
    : (r: Result<ClassDetail>)
    ensures r.Failure? <==> FindClass(classes, id).None?
    ensures r.Failure? ==> r.status == NOT_FOUND
    ensures r.Success? ==>
      && r.status == OK
      && r.value.classRow in classes && r.value.classRow.id == id
      && SortedBy(r.value.members, RoleThenEmail)
      && multiset(r.value.members) == multiset(ClassMembers(users, members, id))
  {
    match FindClass(classes, id)
    case None => Failure(NOT_FOUND)
    case Some(c) =>
      RoleThenEmailIsTotalPreorder();
      SortBySorted(ClassMembers(users, members, id), RoleThenEmail);
      SortByPermutes(ClassMembers(users, members, id), RoleThenEmail);
      Success(OK, ClassDetail(c, SortBy(ClassMembers(users, members, id), RoleThenEmail)))
  }

  // ---- GET /users/available ----

  /** The user is not enrolled in the class, under any role. */
  predicate NotMemberOf(members: seq<Member>, classId: string, u: User) {
    !HasPair(members, classId, u.id)
  }

  predicate Available(members: seq<Member>, role: Option<string>, classId: Option<string>, u: User) {
    && (Truthy(role) ==> u.role == role.value)
    && (Truthy(classId) ==> NotMemberOf(members, classId.value, u))
  }

  predicate EmailOrder(a: User, b: User) {
    StrLeq(a.email, b.email)
  }

  lemma EmailOrderIsTotalPreorder()
    ensures TotalPreorder(EmailOrder)
  {
    forall a, b ensures EmailOrder(a, b) || EmailOrder(b, a) {
      StrLeqTotal(a.email, b.email);
    }
    forall a, b, c | EmailOrder(a, b) && EmailOrder(b, c) ensures EmailOrder(a, c) {
      StrLeqTransitive(a.email, b.email, c.email);
    }
  }

  /**
   * The users of the given role (when one is given) that are not members of
   * the given class (when one is given), ordered by e-mail.
   */
  function AvailableUsers(users: seq<User>, members: seq<Member>, role: Option<string>, classId: Option<string>)
    : (r: seq<User>)
    ensures SortedBy(r, EmailOrder)
    ensures forall u :: u in r <==> u in users && Available(members, role, classId, u)
    ensures multiset(r) <= multiset(users)
  {
    EmailOrderIsTotalPreorder();
    var kept := Filter(users, (u: User) => Available(members, role, classId, u));
    SortBySorted(kept, EmailOrder);
    SortByPermutes(kept, EmailOrder);
    SortBy(kept, EmailOrder)
  }

  /**
   * With unique user ids, the users available for a class are exactly the
   * users not listed among its members: the two lists split the user table.
   */
  lemma AvailableIsComplementOfMembers(users: seq<User>, members: seq<Member>, classId: string, u: User)
    requires forall i, j :: 0 <= i < j < |users| ==> users[i].id != users[j].id
    requires |classId| >= 1 && u in users
    ensures u in AvailableUsers(users, members, None, Some(classId)) <==>
      forall v :: v in ClassMembers(users, members, classId) ==> v.user_id != u.id
  {
    var listed := ClassMembers(users, members, classId);
    FindUserUnique(users, u);
    if !NotMemberOf(members, classId, u) {
      var m :| m in members && SamePair(m, classId, u.id);
      assert Joined(m, u) in listed;
    }
  }

  /** In a table of unique ids, looking up a user's id finds that user. */
  lemma FindUserUnique(users: seq<User>, u: User)
    requires forall i, j :: 0 <= i < j < |users| ==> users[i].id != users[j].id
    requires u in users
    ensures FindUser(users, u.id) == Some(u)
  {
    if users[0] != u {
      assert u in users[1..];
      FindUserUnique(users[1..], u);
    }
  }

  // ---- the service state ----

  class Roster {
    var classes: seq<ClassRow>
    var members: seq<Member>

    ghost predicate Valid()
      reads this
    {
      ClassIdsUnique(classes) && PairsUnique(members) && ClassesExist(classes, members)
    }

    constructor ()
      ensures Valid()
      ensures classes == [] && members == []
    {
      classes, members := [], [];
    }

    /**
     * POST /classes: 400 unless name and level are non-empty; otherwise a
     * class with the id the database generates is appended.
     */
    method CreateClass(x: ClassInput, freshId: string) returns (result: Result<ClassRow>)
      requires Valid()
      requires FindClass(classes, freshId).None?
      modifies this
      ensures Valid()
      ensures members == old(members)
      ensures !ValidClass(x) ==> result == Failure(BAD_REQUEST) && classes == old(classes)
      ensures ValidClass(x) ==>
        && result == Success(CREATED, ClassRow(freshId, x.name, x.level))
        && classes == old(classes) + [result.value]
    {
      if !ValidClass(x) {
        return Failure(BAD_REQUEST);
      }
      var c := ClassRow(freshId, x.name, x.level);
      forall i | 0 <= i < |classes| ensures classes[i].id != freshId {
        assert classes[i] in classes;
      }
      ClassAppendKeepsLookups(classes, c);
      classes := classes + [c];
      result := Success(CREATED, c);
    }

    /**
     * POST /classes/:id/members, guards in the handler's order: 400 for a
     * malformed body, 404 for an unknown class (the path id), 404 for an
     * unknown user, 400 when the membership role is not the account's
     * role, 409 when the user is already a member of the class; otherwise
     * exactly one membership is appended.
     */
    method AddMember(classId: string, x: MemberInput, users: seq<User>) returns (result: Result<Member>)
      requires Valid()
      modifies this
      ensures Valid()
      ensures classes == old(classes)
      ensures result.Failure? ==> members == old(members)
      ensures !ValidMember(x) ==> result == Failure(BAD_REQUEST)
      ensures ValidMember(x) && FindClass(classes, classId).None? ==> result == Failure(NOT_FOUND)
      ensures ValidMember(x) && FindClass(classes, classId).Some? && FindUser(users, x.user_id).None? ==>
        result == Failure(NOT_FOUND)
      ensures ValidMember(x) && FindClass(classes, classId).Some? && FindUser(users, x.user_id).Some? ==>
        var account := FindUser(users, x.user_id).value;
        && (account.role != x.role ==> result == Failure(BAD_REQUEST))
        && (account.role == x.role && HasPair(old(members), classId, x.user_id) ==> result == Failure(CONFLICT))
        && (account.role == x.role && !HasPair(old(members), classId, x.user_id) ==>
              result == Success(CREATED, Member(classId, x.user_id, x.role)) &&
              members == old(members) + [result.value])
    {
      if !ValidMember(x) {
        return Failure(BAD_REQUEST);
      }
      if FindClass(classes, classId).None? {
        return Failure(NOT_FOUND);
      }
      var account := FindUser(users, x.user_id);
      if account.None? {
        return Failure(NOT_FOUND);
      }
      if !RoleMatches(x.role, account.value.role) {
        return Failure(BAD_REQUEST);
      }
      var k := 0;
      while k < |members| && !SamePair(members[k], classId, x.user_id)
        invariant 0 <= k <= |members|
        invariant forall i :: 0 <= i < k ==> !SamePair(members[i], classId, x.user_id)
      {
        k := k + 1;
      }
      if k < |members| {
        return Failure(CONFLICT);
      }
      var m := Member(classId, x.user_id, x.role);
      members := members + [m];
      result := Success(CREATED, m);
    }

    /**
     * DELETE /classes/:id/members/:userId: 404 when the pair is not a
     * membership; otherwise exactly that membership goes and every other
     * stays.
     */
    method RemoveMember(classId: string, userId: string) returns (result: Result<Member>)
      requires Valid()
      modifies this
      ensures Valid()
      ensures classes == old(classes)
      ensures result.Failure? <==> !HasPair(old(members), classId, userId)
      ensures result.Failure? ==> result.status == NOT_FOUND && members == old(members)
      ensures result.Success? ==>
        && result.status == OK
        && result.value in old(members) && SamePair(result.value, classId, userId)
        && |members| == |old(members)| - 1
        && forall m :: m in members <==> m in old(members) && !SamePair(m, classId, userId)
    {
      var k := 0;
      while k < |members| && !SamePair(members[k], classId, userId)
        invariant 0 <= k <= |members|
        invariant forall i :: 0 <= i < k ==> !SamePair(members[i], classId, userId)
      {
        k := k + 1;
      }
      if k == |members| {
        return Failure(NOT_FOUND);
      }
      var gone := members[k];
      RemovePairKeepsOthers(members, k);
      members := members[..k] + members[k + 1..];
      result := Success(OK, gone);
    }
  }

  /** Appending a class with a fresh id keeps ids unique and every existing lookup. */
  lemma ClassAppendKeepsLookups(classes: seq<ClassRow>, c: ClassRow)
    requires forall i :: 0 <= i < |classes| ==> classes[i].id != c.id
    ensures forall id :: FindClass(classes, id).Some? ==> FindClass(classes + [c], id) == FindClass(classes, id)
  {
    if classes != [] {
      assert (classes + [c])[1..] == classes[1..] + [c];
      ClassAppendKeepsLookups(classes[1..], c);
    }
  }

  /**
   * Removing the membership at k from a table of unique pairs removes
   * exactly the memberships with that pair.
   */
  lemma RemovePairKeepsOthers(members: seq<Member>, k: nat)
    requires k < |members| && PairsUnique(members)
    ensures var r, p := members[..k] + members[k + 1..], members[k];
      && PairsUnique(r)
      && forall m :: m in r <==> m in members && !SamePair(m, p.class_id, p.user_id)
  {
    var r, p := members[..k] + members[k + 1..], members[k];
    assert forall i :: 0 <= i < |r| ==> r[i] == members[if i < k then i else i + 1];
    forall m ensures m in r <==> m in members && !SamePair(m, p.class_id, p.user_id) {
      if m in members && !SamePair(m, p.class_id, p.user_id) {
        var i :| 0 <= i < |members| && members[i] == m;
        assert i != k;
        assert m == r[if i < k then i else i - 1];
      }
      if m in r {
        var i :| 0 <= i < |r| && r[i] == m;
        var j := if i < k then i else i + 1;
        assert members[j] == m && j != k;
      }
    }
  }
}
