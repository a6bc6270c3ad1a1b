/**
 * The members page of app/page.tsx: the list of members being edited, the
 * numbering of a newly added member, field updates, deletions that wait for
 * the next save, and the two save buttons.
 *
 * Toasts and scrolling are presentation and are not modelled; the page's
 * store and edit context are the objects it calls.
 */
module MembersPage {
  import opened Values
  import opened Data
  import opened Firestore
  import opened Edit

  const MemberIdPrefix := "member-"

  function IdsOf(ms: seq<Member>): (ids: seq<string>)
    ensures |ids| == |ms| && forall i :: 0 <= i < |ms| ==> ids[i] == ms[i].id
  {
    seq(|ms|, i requires 0 <= i < |ms| => ms[i].id)
  }

  /** The number `parseInt` reads after the `member-` of an id; `None` for other ids and for `NaN`. */
  function MemberNumber(id: string): Option<int>
  {
    if StartsWith(id, MemberIdPrefix) then ParseInt(id[|MemberIdPrefix|..]) else None
  }

  /** `existingIds`: the member numbers of the ids, in order. */
  function MemberNumbers(ids: seq<string>): seq<int>
    decreases |ids|
  {
    if ids == [] then []
    else
      var last := MemberNumber(ids[|ids| - 1]);
      MemberNumbers(ids[..|ids| - 1]) + (if last.Some? then [last.value] else [])
  }

  /** Every number read from an id is among the numbers. */
  lemma {:induction false} MemberNumbersComplete(ids: seq<string>, i: nat)
    requires i < |ids| && MemberNumber(ids[i]).Some?
    ensures MemberNumber(ids[i]).value in MemberNumbers(ids)
    decreases |ids|
  {
    var init := ids[..|ids| - 1];
    if i < |ids| - 1 {
      assert init[i] == ids[i];
      MemberNumbersComplete(init, i);
    }
  }

  /** Every one of the numbers was read from some id. */
  lemma {:induction false} MemberNumbersSound(ids: seq<string>, n: int)
    requires n in MemberNumbers(ids)
    ensures exists i :: 0 <= i < |ids| && MemberNumber(ids[i]) == Some(n)
    decreases |ids|
  {
    var init := ids[..|ids| - 1];
    if n in MemberNumbers(init) {
      MemberNumbersSound(init, n);
      var i :| 0 <= i < |init| && MemberNumber(init[i]) == Some(n);
      assert ids[i] == init[i];
    } else {
      assert MemberNumber(ids[|ids| - 1]) == Some(n);
    }
  }

  /** `Math.max(...ns)` of a non-empty list. */
  function MaxOf(ns: seq<int>): (m: int)
    requires ns != []
    ensures m in ns && forall n :: n in ns ==> n <= m
    decreases |ns|
  {
    if |ns| == 1 then ns[0]
    else
      var rest := MaxOf(ns[1..]);
      assert ns == [ns[0]] + ns[1..];
      if ns[0] >= rest then ns[0] else rest
  }

  /** `nextNumber`: one more than the largest member number, or 1 when there is none. */
  function NextMemberNumber(ids: seq<string>): int
  {
    var ns := MemberNumbers(ids);
    if ns == [] then 1 else MaxOf(ns) + 1
  }

  /** Every number already in use lies below the next one. */
  lemma NextMemberNumberAbove(ids: seq<string>)
    ensures forall i :: 0 <= i < |ids| && MemberNumber(ids[i]).Some? ==> MemberNumber(ids[i]).value < NextMemberNumber(ids)
    ensures MemberNumbers(ids) == [] ==> NextMemberNumber(ids) == 1
    ensures MemberNumbers(ids) != [] ==> NextMemberNumber(ids) - 1 in MemberNumbers(ids)
  {
    forall i | 0 <= i < |ids| && MemberNumber(ids[i]).Some?
      ensures MemberNumber(ids[i]).value < NextMemberNumber(ids)
    {
      MemberNumbersComplete(ids, i);
    }
  }

  /** `member-${String(nextNumber).padStart(5, '0')}`. */
  function NextMemberId(ids: seq<string>): (id: string)
    ensures StartsWith(id, MemberIdPrefix)
  {
    var id := MemberIdPrefix + PadStart(IntToString(NextMemberNumber(ids)), 5, '0');
    assert id[..|MemberIdPrefix|] == MemberIdPrefix;
    id
  }

  /** The new id reads back as a number at least the next one. */
  lemma NextMemberIdNumber(ids: seq<string>)
    ensures MemberNumber(NextMemberId(ids)).Some?
    ensures MemberNumber(NextMemberId(ids)).value >= NextMemberNumber(ids)
  {
    var k := NextMemberNumber(ids);
    var id := NextMemberId(ids);
    ParsePaddedAtLeast(k);
    assert id[|MemberIdPrefix|..] == PadStart(IntToString(k), 5, '0');
  }

  /** The generated id is never one the list already holds. */
  lemma NextMemberIdFresh(ids: seq<string>)
    ensures NextMemberId(ids) !in ids
  {
    var id := NextMemberId(ids);
    NextMemberIdNumber(ids);
    NextMemberNumberAbove(ids);
    forall i | 0 <= i < |ids|
      ensures ids[i] != id
    {
    }
  }

  /** The member `handleAddMember` creates: every text set to `準備中`, no photos. */
  function PlaceholderMember(id: string): Member
  {
    Member(id, "準備中", "準備中", "準備中です", None, None,
      Some("準備中"), Some("準備中"), Some("準備中"), Some("準備中"), Some("準備中"))
  }

  /** `keyof Member`. */
  datatype MemberField =
    | Id | Name | Nickname | Tagline | ImageNo1 | ImageNo2
    | BirthDate | Hometown | Hobbies | Thoughts | Career

  /** `m[field]`, with `None` for an absent optional property. */
  function FieldOf(m: Member, f: MemberField): Option<string>
  {
    match f
    case Id => Some(m.id)
    case Name => Some(m.name)
    case Nickname => Some(m.nickname)
    case Tagline => Some(m.tagline)
    case ImageNo1 => m.imageNo1
    case ImageNo2 => m.imageNo2
    case BirthDate => m.birthDate
    case Hometown => m.hometown
    case Hobbies => m.hobbies
    case Thoughts => m.thoughts
    case Career => m.career
  }

  /** Two members that agree on every field are the same member. */
  lemma FieldsDetermineMember(a: Member, b: Member)
    requires forall f :: FieldOf(a, f) == FieldOf(b, f)
    ensures a == b
  {
    assert FieldOf(a, Id) == FieldOf(b, Id);
    assert FieldOf(a, Name) == FieldOf(b, Name);
    assert FieldOf(a, Nickname) == FieldOf(b, Nickname);
    assert FieldOf(a, Tagline) == FieldOf(b, Tagline);
    assert FieldOf(a, ImageNo1) == FieldOf(b, ImageNo1);
    assert FieldOf(a, ImageNo2) == FieldOf(b, ImageNo2);
    assert FieldOf(a, BirthDate) == FieldOf(b, BirthDate);
    assert FieldOf(a, Hometown) == FieldOf(b, Hometown);
    assert FieldOf(a, Hobbies) == FieldOf(b, Hobbies);
    assert FieldOf(a, Thoughts) == FieldOf(b, Thoughts);
    assert FieldOf(a, Career) == FieldOf(b, Career);
  }

  /** `{ ...m, [field]: value }`: that field becomes `value`, every other field is kept. */
  function WithField(m: Member, f: MemberField, v: string): (r: Member)
    ensures FieldOf(r, f) == Some(v)
    ensures forall g :: g != f ==> FieldOf(r, g) == FieldOf(m, g)
  {
    match f
    case Id => m.(id := v)
    case Name => m.(name := v)
    case Nickname => m.(nickname := v)
    case Tagline => m.(tagline := v)
    case ImageNo1 => m.(imageNo1 := Some(v))
    case ImageNo2 => m.(imageNo2 := Some(v))
    case BirthDate => m.(birthDate := Some(v))
    case Hometown => m.(hometown := Some(v))
    case Hobbies => m.(hobbies := Some(v))
    case Thoughts => m.(thoughts := Some(v))
    case Career => m.(career := Some(v))
  }

  /** Writing back a field's own value changes nothing. */
  lemma WithFieldSameValue(m: Member, f: MemberField)
    requires FieldOf(m, f).Some?
    ensures WithField(m, f, FieldOf(m, f).value) == m
  {
    FieldsDetermineMember(WithField(m, f, FieldOf(m, f).value), m);
  }

  /** `prev.map((m) => (m.id === id ? { ...m, [field]: value } : m))`. */
  function UpdateMembers(ms: seq<Member>, id: string, f: MemberField, v: string): (r: seq<Member>)
    ensures |r| == |ms|
  {
    seq(|ms|, i requires 0 <= i < |ms| => if ms[i].id == id then WithField(ms[i], f, v) else ms[i])
  }

  /** An update touches only the members with that id, and only in that field. */
  lemma UpdateMembersOnly(ms: seq<Member>, id: string, f: MemberField, v: string)
    ensures forall i :: 0 <= i < |ms| && ms[i].id != id ==> UpdateMembers(ms, id, f, v)[i] == ms[i]
    ensures forall i, g :: 0 <= i < |ms| && ms[i].id == id ==>
      FieldOf(UpdateMembers(ms, id, f, v)[i], g) == if g == f then Some(v) else FieldOf(ms[i], g)
    ensures f != Id ==> IdsOf(UpdateMembers(ms, id, f, v)) == IdsOf(ms)
  {
    var r := UpdateMembers(ms, id, f, v);
    if f != Id {
      forall i | 0 <= i < |ms| ensures r[i].id == ms[i].id {
        assert FieldOf(r[i], Id) == FieldOf(ms[i], Id);
      }
    }
  }

  /** `prev.filter((m) => m.id !== id)`. */
  function WithoutMember(ms: seq<Member>, id: string): seq<Member>
  {
    Filter(ms, (m: Member) => m.id != id)
  }

  /** The filter drops exactly the members with that id; with none, the list is unchanged. */
  lemma WithoutMemberExactly(ms: seq<Member>, id: string)
    ensures forall m :: m in WithoutMember(ms, id) <==> m in ms && m.id != id
    ensures (forall m :: m in ms ==> m.id != id) ==> WithoutMember(ms, id) == ms
  {
    FilterExactly(ms, (m: Member) => m.id != id);
  }

  /** No two members share an id. */
  predicate UniqueIds(ms: seq<Member>)
  {
    forall i, j :: 0 <= i < j < |ms| ==> ms[i].id != ms[j].id
  }

  /** Distinct member ids give distinct entries for the full-replace save. */
  lemma UniqueEntries(ms: seq<Member>)
    requires UniqueIds(ms)
    ensures DistinctIds(MemberEntries(ms))
  {
  }

  /** After a save of a list with distinct ids, reading a member back gives its text fields. */
  lemma SavedMemberReadsBack(store: map<string, Doc>, ms: seq<Member>, i: nat)
    requires UniqueIds(ms) && i < |ms|
    ensures ms[i].id in Sync(store, MemberEntries(ms))
    ensures var back := ReadMember(ms[i].id, Sync(store, MemberEntries(ms))[ms[i].id]);
      && back.name == ms[i].name && back.nickname == ms[i].nickname && back.tagline == ms[i].tagline
      && back.hometown == Some(OrEmpty(ms[i].hometown)) && back.hobbies == Some(OrEmpty(ms[i].hobbies))
      && back.thoughts == Some(OrEmpty(ms[i].thoughts)) && back.career == Some(OrEmpty(ms[i].career))
  {
    var es := MemberEntries(ms);
    UniqueEntries(ms);
    SyncDistinct(store, es, i);
    MemberRoundTripText(ms[i], DocOrEmpty(store, ms[i].id));
  }

  /** Appending a member whose id is new keeps the ids distinct. */
  lemma AppendFreshUnique(ms: seq<Member>, m: Member)
    requires UniqueIds(ms) && m.id !in IdsOf(ms)
    ensures UniqueIds(ms + [m])
  {
    forall i | 0 <= i < |ms| ensures ms[i].id != m.id {
      assert IdsOf(ms)[i] == ms[i].id;
    }
  }

  class HomePage {
    var members: seq<Member>
    var loading: bool
    const store: Store
    const edit: EditContext

    constructor (store: Store, edit: EditContext)
      ensures this.store == store && this.edit == edit
      ensures members == [] && loading
    {
      this.store := store;
      this.edit := edit;
      members := [];
      loading := true;
    }

    /** `loadMembers`: the page shows what `getMembers` returns. */
    method LoadMembers()
      modifies this
      ensures !loading
      ensures !store.configured ==> members == []
      ensures store.configured ==> MemberIds(members) == store.members.Keys && |members| == |store.members|
      ensures MembersReadFrom(store.members, members)
    {
      loading := true;
      members := store.GetMembers();
      loading := false;
    }

    /**
     * `handleSave`: the store then holds exactly the page's members and the
     * unsaved flag is cleared; on failure nothing changes.
     */
    method Save() returns (r: Outcome)
      modifies store, edit
      ensures r == if store.configured then Done else Failed(NotConfigured)
      ensures store.members == if r.Done? then Sync(old(store.members), MemberEntries(members)) else old(store.members)
      ensures r.Done? ==> store.members.Keys == MemberIds(members)
      ensures store.reports == old(store.reports)
      ensures edit.isEditMode == old(edit.isEditMode)
      ensures edit.hasUnsavedChanges == if r.Done? then false else old(edit.hasUnsavedChanges)
    {
      r := store.SaveMembers(members);
      if r.Done? {
        SyncKeys(old(store.members), MemberEntries(members));
        MemberEntryIds(members);
        edit.SetHasUnsavedChanges(false);
      }
    }

    /** `handleSaveAndExit`: as `handleSave`, and on success edit mode ends too. */
    method SaveAndExit() returns (r: Outcome)
      modifies store, edit
      ensures r == if store.configured then Done else Failed(NotConfigured)
      ensures store.members == if r.Done? then Sync(old(store.members), MemberEntries(members)) else old(store.members)
      ensures r.Done? ==> store.members.Keys == MemberIds(members)
      ensures store.reports == old(store.reports)
      ensures r.Done? ==> !edit.isEditMode && !edit.hasUnsavedChanges
      ensures r.Failed? ==> edit.isEditMode == old(edit.isEditMode) && edit.hasUnsavedChanges == old(edit.hasUnsavedChanges)
    {
      r := Save();
      if r.Done? {
        edit.DisableEditMode();
      }
    }

    /** `handleUpdateMember`: the field changes locally and the page has unsaved changes. */
    method UpdateMember(id: string, f: MemberField, v: string)
      modifies this`members, edit`hasUnsavedChanges
      ensures members == UpdateMembers(old(members), id, f, v)
      ensures edit.hasUnsavedChanges && edit.isEditMode == old(edit.isEditMode)
      ensures f != Id && UniqueIds(old(members)) ==> UniqueIds(members)
    {
      UpdateMembersOnly(members, id, f, v);
      members := UpdateMembers(members, id, f, v);
      edit.SetHasUnsavedChanges(true);
    }

    /**
     * `handleAddMember`: the placeholder is saved under the next free id and,
     * only if that succeeds, appended; the unsaved flag is left alone.
     */
    method AddMember() returns (r: Outcome)
      modifies this`members, store`members
      ensures r == if store.configured then Done else Failed(NotConfigured)
      ensures var m := PlaceholderMember(NextMemberId(IdsOf(old(members))));
        && members == (if r.Done? then old(members) + [m] else old(members))
        && store.members == (if r.Done? then Upsert(old(store.members), m.id, MemberRecord(m)) else old(store.members))
      ensures store.reports == old(store.reports)
      ensures r.Done? ==> NextMemberId(IdsOf(old(members))) !in MemberIds(old(members))
      ensures UniqueIds(old(members)) ==> UniqueIds(members)
    {
      var id := NextMemberId(IdsOf(members));
      NextMemberIdFresh(IdsOf(members));
      var m := PlaceholderMember(id);
      r := store.SaveMember(m);
      if r.Done? {
        if UniqueIds(members) {
          AppendFreshUnique(members, m);
        }
        members := members + [m];
      }
    }

    /**
     * The `onConfirm` of `handleDeleteMember`: the member leaves the page's
     * list only; the store keeps it until the next save.
     */
    method ConfirmDeleteMember(id: string)
      modifies this`members, edit`hasUnsavedChanges
      ensures members == WithoutMember(old(members), id)
      ensures id !in MemberIds(members)
      ensures edit.hasUnsavedChanges && edit.isEditMode == old(edit.isEditMode)
    {
      WithoutMemberExactly(members, id);
      members := WithoutMember(members, id);
      edit.SetHasUnsavedChanges(true);
    }
  }
}
