/**
 * The authentication context of contexts/AuthContext.tsx: a shared-id login
 * that records the chosen member, persisted in the browser's `localStorage`
 * (a string-to-string map here) and restored from it on page load.
 */
module Auth {
  import opened Values

  const AuthKey := "isAuthenticated"
  const MemberIdKey := "currentMemberId"
  const MemberNameKey := "currentMemberName"

  const ValidIds: set<string> := {"admin", "orange-admin", "o-range"}

  /** `validIds.includes(id.toLowerCase())`. */
  predicate IsValidLoginId(id: string)
  {
    ToLower(id) in ValidIds
  }

  lemma ToLowerIdempotent(s: string)
    ensures ToLower(ToLower(s)) == ToLower(s)
  {
  }

  /** The check ignores case: an id and its lower-case form are accepted together. */
  lemma LoginIgnoresCase(id: string)
    ensures IsValidLoginId(id) <==> IsValidLoginId(ToLower(id))
  {
    ToLowerIdempotent(id);
  }

  /** `localStorage.getItem(key)`, with `None` for `null`. */
  function GetItem(storage: map<string, string>, key: string): Option<string>
  {
    if key in storage then Some(storage[key]) else None
  }

  /** What the restore effect reads: a member id and name, when the stored flag is `'true'` and both are non-empty. */
  function RestoredSession(storage: map<string, string>): (r: Option<(string, string)>)
    ensures r.Some? <==> (
      && GetItem(storage, AuthKey) == Some("true")
      && GetItem(storage, MemberIdKey).Some? && GetItem(storage, MemberIdKey).value != ""
      && GetItem(storage, MemberNameKey).Some? && GetItem(storage, MemberNameKey).value != "")
    ensures r.Some? ==> r.value == (storage[MemberIdKey], storage[MemberNameKey])
  {
    match (GetItem(storage, AuthKey), GetItem(storage, MemberIdKey), GetItem(storage, MemberNameKey))
    case (Some(status), Some(memberId), Some(memberName)) =>
      if status == "true" && memberId != "" && memberName != "" then Some((memberId, memberName)) else None
    case _ => None
  }

  /** The three keys `login` writes. */
  function LoginWrites(storage: map<string, string>, memberId: string, memberName: string): map<string, string>
  {
    storage[AuthKey := "true"][MemberIdKey := memberId][MemberNameKey := memberName]
  }

  /** A reload after a login restores that member, unless the id or name was empty. */
  lemma RestoreAfterLogin(storage: map<string, string>, memberId: string, memberName: string)
    ensures RestoredSession(LoginWrites(storage, memberId, memberName))
      == if memberId != "" && memberName != "" then Some((memberId, memberName)) else None
  {
    var s := LoginWrites(storage, memberId, memberName);
    assert GetItem(s, AuthKey) == Some("true");
    assert GetItem(s, MemberIdKey) == Some(memberId);
    assert GetItem(s, MemberNameKey) == Some(memberName);
  }

  /** A reload after a logout restores nothing. */
  lemma RestoreAfterLogout(storage: map<string, string>)
    ensures RestoredSession(storage - {AuthKey, MemberIdKey, MemberNameKey}).None?
  {
    assert GetItem(storage - {AuthKey, MemberIdKey, MemberNameKey}, AuthKey).None?;
  }

  class AuthContext {
    var isAuthenticated: bool
    var loading: bool
    var currentMemberId: Option<string>
    var currentMemberName: Option<string>
    var storage: map<string, string>

    /** The initial state, before the restore effect runs. */
    constructor (storage: map<string, string>)
      ensures !isAuthenticated && loading
      ensures currentMemberId == None && currentMemberName == None
      ensures this.storage == storage
    {
      isAuthenticated := false;
      loading := true;
      currentMemberId := None;
      currentMemberName := None;
      this.storage := storage;
    }

    /** The mount effect: restore a persisted session if it is complete; loading ends either way. */
    method Restore()
      modifies this
      ensures !loading && storage == old(storage)
      ensures RestoredSession(storage).Some? ==> (
        && isAuthenticated && currentMemberId == Some(RestoredSession(storage).value.0)
        && currentMemberName == Some(RestoredSession(storage).value.1))
      ensures RestoredSession(storage).None? ==> (
        && isAuthenticated == old(isAuthenticated) && currentMemberId == old(currentMemberId)
        && currentMemberName == old(currentMemberName))
    {
      var session := RestoredSession(storage);
      if session.Some? {
        isAuthenticated := true;
        currentMemberId := Some(session.value.0);
        currentMemberName := Some(session.value.1);
      }
      loading := false;
    }

    /** `login`: on a valid id, set the three fields and persist them; otherwise change nothing. */
    method Login(id: string, memberId: string, memberName: string) returns (ok: bool)
      modifies this
      ensures ok <==> IsValidLoginId(id)
      ensures ok ==> (
        && isAuthenticated && currentMemberId == Some(memberId) && currentMemberName == Some(memberName)
        && storage == LoginWrites(old(storage), memberId, memberName))
      ensures !ok ==> (
        && isAuthenticated == old(isAuthenticated) && currentMemberId == old(currentMemberId)
        && currentMemberName == old(currentMemberName) && storage == old(storage))
      ensures loading == old(loading)
    {
      if IsValidLoginId(id) {
        isAuthenticated := true;
        currentMemberId := Some(memberId);
        currentMemberName := Some(memberName);
        storage := LoginWrites(storage, memberId, memberName);
        return true;
      }
      return false;
    }

    /** `logout`: clear the three fields and remove the three keys. */
    method Logout()
      modifies this
      ensures !isAuthenticated && currentMemberId == None && currentMemberName == None
      ensures storage == old(storage) - {AuthKey, MemberIdKey, MemberNameKey}
      ensures loading == old(loading)
    {
      isAuthenticated := false;
      currentMemberId := None;
      currentMemberName := None;
      storage := storage - {AuthKey, MemberIdKey, MemberNameKey};
    }
  }
}
