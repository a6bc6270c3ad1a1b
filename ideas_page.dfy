/**
 * The idea board of app/ideas/page.tsx: ideas sorted newest first on load,
 * a form that adds a new idea at the top or edits one in place after
 * validation, deletion, and the member filter with its count.
 *
 * The idea collection's own store functions are not part of the model; each
 * call's success is a parameter. Clock readings are parameters too.
 */
module IdeasPage {
  import opened Values
  import opened Data
  import opened Firestore

  // ---------------------------------------------------------------------
  // Ordering by creation time

  /** Code-unit order on strings: `a` sorts strictly before `b`. */
  predicate StrLt(a: string, b: string)
    decreases |a|
  {
    if a == [] then b != []
    else if b == [] then false
    else if a[0] != b[0] then a[0] < b[0]
    else StrLt(a[1..], b[1..])
  }

  lemma {:induction false} StrLtIrreflexive(a: string)
    ensures !StrLt(a, a)
    decreases |a|
  {
    if a != [] {
      StrLtIrreflexive(a[1..]);
    }
  }

  lemma {:induction false} StrLtAsymmetric(a: string, b: string)
    requires StrLt(a, b)
    ensures !StrLt(b, a)
    decreases |a|
  {
    if a != [] && b != [] && a[0] == b[0] {
      StrLtAsymmetric(a[1..], b[1..]);
    }
  }

  /** "Not before" is transitive. */
  lemma {:induction false} NotLessTransitive(a: string, b: string, c: string)
    requires !StrLt(a, b) && !StrLt(b, c)
    ensures !StrLt(a, c)
    decreases |a|
  {
    if a != [] && b != [] && c != [] && a[0] == b[0] && b[0] == c[0] {
      NotLessTransitive(a[1..], b[1..], c[1..]);
    }
  }

  /** Two strings neither of which sorts before the other are equal. */
  lemma {:induction false} StrLtTotal(a: string, b: string)
    requires !StrLt(a, b) && !StrLt(b, a)
    ensures a == b
    decreases |a|
  {
    if a != [] && b != [] {
      StrLtTotal(a[1..], b[1..]);
      assert a == [a[0]] + a[1..] && b == [b[0]] + b[1..];
    }
  }

  /** Places `x` before the first idea that is not newer than it. */
  function InsertByCreated(x: Idea, t: seq<Idea>): (r: seq<Idea>)
    ensures multiset(r) == multiset(t) + multiset{x}
    decreases |t|
  {
    if t == [] || !StrLt(x.createdAt, t[0].createdAt) then [x] + t
    else assert t == [t[0]] + t[1..]; [t[0]] + InsertByCreated(x, t[1..])
  }

  /** `ideas.sort((a, b) => b.createdAt.localeCompare(a.createdAt))`: a stable sort, newest first. */
  function SortByCreatedDesc(s: seq<Idea>): (r: seq<Idea>)
    ensures multiset(r) == multiset(s)
    decreases |s|
  {
    if s == [] then [] else assert s == [s[0]] + s[1..]; InsertByCreated(s[0], SortByCreatedDesc(s[1..]))
  }

  predicate NewestFirst(s: seq<Idea>)
  {
    forall i, j :: 0 <= i < j < |s| ==> !StrLt(s[i].createdAt, s[j].createdAt)
  }

  lemma {:induction false} InsertByCreatedSorted(x: Idea, t: seq<Idea>)
    requires NewestFirst(t)
    ensures NewestFirst(InsertByCreated(x, t))
    decreases |t|
  {
    var r := InsertByCreated(x, t);
    if t == [] || !StrLt(x.createdAt, t[0].createdAt) {
      forall j | 1 <= j < |r| ensures !StrLt(x.createdAt, r[j].createdAt) {
        if j > 1 {
          NotLessTransitive(x.createdAt, t[0].createdAt, t[j - 1].createdAt);
        }
      }
    } else {
      InsertByCreatedSorted(x, t[1..]);
      var rest := InsertByCreated(x, t[1..]);
      forall e | e in rest ensures !StrLt(t[0].createdAt, e.createdAt) {
        assert e in multiset(rest);
        if e == x {
          StrLtAsymmetric(x.createdAt, t[0].createdAt);
        } else {
          assert e in multiset(t[1..]);
          var k :| 0 <= k < |t[1..]| && t[1..][k] == e;
          assert t[k + 1] == e;
        }
      }
      forall j | 1 <= j < |r| ensures !StrLt(r[0].createdAt, r[j].createdAt) {
        assert r[j] in rest;
      }
    }
  }

  lemma {:induction false} SortByCreatedSorted(s: seq<Idea>)
    ensures NewestFirst(SortByCreatedDesc(s))
    decreases |s|
  {
    if s != [] {
      SortByCreatedSorted(s[1..]);
      InsertByCreatedSorted(s[0], SortByCreatedDesc(s[1..]));
    }
  }

  /** The ideas created at `t`, in order. */
  function CreatedAt(s: seq<Idea>, t: string): seq<Idea>
    decreases |s|
  {
    if s == [] then []
    else (if s[0].createdAt == t then [s[0]] else []) + CreatedAt(s[1..], t)
  }

  lemma {:induction false} InsertByCreatedStable(x: Idea, t: seq<Idea>, v: string)
    ensures CreatedAt(InsertByCreated(x, t), v) == (if x.createdAt == v then [x] else []) + CreatedAt(t, v)
    decreases |t|
  {
    if t == [] || !StrLt(x.createdAt, t[0].createdAt) {
      assert ([x] + t)[1..] == t;
    } else {
      StrLtIrreflexive(x.createdAt);
      InsertByCreatedStable(x, t[1..], v);
      assert ([t[0]] + InsertByCreated(x, t[1..]))[1..] == InsertByCreated(x, t[1..]);
    }
  }

  /** Stability: ideas created at the same time keep the order they were fetched in. */
  lemma {:induction false} SortByCreatedStable(s: seq<Idea>, v: string)
    ensures CreatedAt(SortByCreatedDesc(s), v) == CreatedAt(s, v)
    decreases |s|
  {
    if s != [] {
      SortByCreatedStable(s[1..], v);
      InsertByCreatedStable(s[0], SortByCreatedDesc(s[1..]), v);
    }
  }

  // ---------------------------------------------------------------------
  // Filtering

  /** `ideas.filter(idea => idea.memberId === memberId)`. */
  function IdeasOf(ideas: seq<Idea>, memberId: string): seq<Idea>
  {
    Filter(ideas, (x: Idea) => x.memberId == memberId)
  }

  lemma IdeasOfExactly(ideas: seq<Idea>, memberId: string)
    ensures forall x :: x in IdeasOf(ideas, memberId) <==> x in ideas && x.memberId == memberId
  {
    FilterExactly(ideas, (x: Idea) => x.memberId == memberId);
  }

  /** `currentMemberId` is truthy: someone is logged in. */
  predicate LoggedIn(currentMemberId: Option<string>)
  {
    currentMemberId.Some? && currentMemberId.value != ""
  }

  /** `filteredIdeas`. */
  function FilteredIdeas(ideas: seq<Idea>, selected: string, currentMemberId: Option<string>): seq<Idea>
  {
    if selected == "all" then ideas
    else if selected == "my" && LoggedIn(currentMemberId) then IdeasOf(ideas, currentMemberId.value)
    else IdeasOf(ideas, selected)
  }

  /**
   * `'all'` shows everything; `'my'` with someone logged in shows their
   * ideas; anything else shows the ideas whose member id is the selection.
   */
  lemma FilteredIdeasShows(ideas: seq<Idea>, selected: string, currentMemberId: Option<string>)
    ensures selected == "all" ==> FilteredIdeas(ideas, selected, currentMemberId) == ideas
    ensures selected == "my" && LoggedIn(currentMemberId) ==>
      forall x :: x in FilteredIdeas(ideas, selected, currentMemberId) <==> x in ideas && x.memberId == currentMemberId.value
    ensures selected != "all" && !(selected == "my" && LoggedIn(currentMemberId)) ==>
      forall x :: x in FilteredIdeas(ideas, selected, currentMemberId) <==> x in ideas && x.memberId == selected
  {
    IdeasOfExactly(ideas, selected);
    if LoggedIn(currentMemberId) {
      IdeasOfExactly(ideas, currentMemberId.value);
    }
  }

  /** `myIdeasCount`. */
  function MyIdeasCount(ideas: seq<Idea>, currentMemberId: Option<string>): nat
  {
    if LoggedIn(currentMemberId) then |IdeasOf(ideas, currentMemberId.value)| else 0
  }

  /** The count is the length of the `'my'` view when logged in, and 0 otherwise. */
  lemma MyIdeasCountIsMyView(ideas: seq<Idea>, currentMemberId: Option<string>)
    ensures LoggedIn(currentMemberId) ==> MyIdeasCount(ideas, currentMemberId) == |FilteredIdeas(ideas, "my", currentMemberId)|
    ensures !LoggedIn(currentMemberId) ==> MyIdeasCount(ideas, currentMemberId) == 0
    ensures MyIdeasCount(ideas, currentMemberId) <= |ideas|
  {
  }

  // ---------------------------------------------------------------------
  // Saving and deleting

  /** The form's fields. */
  datatype IdeaForm = IdeaForm(memberId: string, ideaName: string, content: string, rejectionReason: string)

  /** `s.trim() || undefined`. */
  function OptionalText(s: string): (r: Option<string>)
    ensures r.None? <==> Trim(s) == ""
    ensures r.Some? ==> r.value == Trim(s)
  {
    if Trim(s) == "" then None else Some(Trim(s))
  }

  /** `members.find(m => m.id === memberId)`. */
  function FindMember(members: seq<Member>, memberId: string): (r: Option<Member>)
    ensures r.Some? ==> r.value in members && r.value.id == memberId
    ensures r.None? ==> forall m :: m in members ==> m.id != memberId
    decreases |members|
  {
    if members == [] then None
    else if members[0].id == memberId then Some(members[0])
    else FindMember(members[1..], memberId)
  }

  /** `ideas.find(i => i.id === id)`. */
  function FindIdea(ideas: seq<Idea>, id: string): (r: Option<Idea>)
    ensures r.Some? ==> r.value in ideas && r.value.id == id
    ensures r.None? ==> forall x :: x in ideas ==> x.id != id
    decreases |ideas|
  {
    if ideas == [] then None
    else if ideas[0].id == id then Some(ideas[0])
    else FindIdea(ideas[1..], id)
  }

  /** The edited idea: the form's trimmed values, the member's name and a new `updatedAt` over the old idea. */
  function EditedIdea(old_: Idea, form: IdeaForm, member: Member, nowIso: string): Idea
  {
    old_.(memberId := form.memberId, memberName := member.name, ideaName := Trim(form.ideaName),
          content := Trim(form.content), rejectionReason := OptionalText(form.rejectionReason), updatedAt := nowIso)
  }

  /**
   * A new idea, `idea-${Date.now()}`. The id, `createdAt` and `updatedAt`
   * come from three separate clock readings, which may differ.
   */
  function NewIdea(form: IdeaForm, member: Member, nowMs: nat, createdIso: string, updatedIso: string): Idea
  {
    Idea("idea-" + NatToString(nowMs), form.memberId, member.name, Trim(form.ideaName), Trim(form.content),
      OptionalText(form.rejectionReason), createdIso, updatedIso)
  }

  /** `prev.map(i => i.id === id ? x : i)`. */
  function ReplaceIdea(ideas: seq<Idea>, id: string, x: Idea): (r: seq<Idea>)
    ensures |r| == |ideas|
  {
    seq(|ideas|, i requires 0 <= i < |ideas| => if ideas[i].id == id then x else ideas[i])
  }

  /**
   * The list after a successful save: with a non-empty `editingId` the
   * idea with that id is replaced (nothing changes when there is none);
   * otherwise the new idea goes first.
   */
  function SavedIdeas(ideas: seq<Idea>, editingId: Option<string>, form: IdeaForm, member: Member,
    nowMs: nat, createdIso: string, updatedIso: string): seq<Idea>
  {
    if editingId.Some? && editingId.value != "" then
      match FindIdea(ideas, editingId.value)
      case Some(target) => ReplaceIdea(ideas, editingId.value, EditedIdea(target, form, member, updatedIso))
      case None => ideas
    else [NewIdea(form, member, nowMs, createdIso, updatedIso)] + ideas
  }

  /**
   * An edit keeps the idea's id, creation time and position, takes the
   * form's trimmed texts, and leaves every other idea where it was.
   */
  lemma EditInPlace(ideas: seq<Idea>, id: string, form: IdeaForm, member: Member, nowMs: nat, createdIso: string, updatedIso: string)
    requires id != "" && FindIdea(ideas, id).Some?
    ensures var r := SavedIdeas(ideas, Some(id), form, member, nowMs, createdIso, updatedIso);
      && |r| == |ideas|
      && (forall i :: 0 <= i < |ideas| && ideas[i].id != id ==> r[i] == ideas[i])
      && (forall i :: 0 <= i < |ideas| && ideas[i].id == id ==>
            r[i].id == id && r[i].createdAt == FindIdea(ideas, id).value.createdAt
            && r[i].ideaName == Trim(form.ideaName) && r[i].content == Trim(form.content)
            && r[i].memberId == form.memberId && r[i].memberName == member.name
            && r[i].rejectionReason == OptionalText(form.rejectionReason) && r[i].updatedAt == updatedIso)
  {
    var target := FindIdea(ideas, id).value;
    var x := EditedIdea(target, form, member, updatedIso);
    assert SavedIdeas(ideas, Some(id), form, member, nowMs, createdIso, updatedIso) == ReplaceIdea(ideas, id, x);
  }

  /** Editing an id that is no longer listed changes nothing. */
  lemma EditVanished(ideas: seq<Idea>, id: string, form: IdeaForm, member: Member, nowMs: nat, createdIso: string, updatedIso: string)
    requires id != "" && forall x :: x in ideas ==> x.id != id
    ensures SavedIdeas(ideas, Some(id), form, member, nowMs, createdIso, updatedIso) == ideas
  {
  }

  /** A new idea goes first, under an `idea-` id made from the clock, with its own creation and update times. */
  lemma AddFirst(ideas: seq<Idea>, editingId: Option<string>, form: IdeaForm, member: Member, nowMs: nat, createdIso: string, updatedIso: string)
    requires !(editingId.Some? && editingId.value != "")
    ensures var r := SavedIdeas(ideas, editingId, form, member, nowMs, createdIso, updatedIso);
      && r[1..] == ideas
      && r[0].id == "idea-" + NatToString(nowMs) && r[0].memberId == form.memberId
      && r[0].memberName == member.name && r[0].ideaName == Trim(form.ideaName)
      && r[0].content == Trim(form.content) && r[0].rejectionReason == OptionalText(form.rejectionReason)
      && r[0].createdAt == createdIso && r[0].updatedAt == updatedIso
  {
    var r := SavedIdeas(ideas, editingId, form, member, nowMs, createdIso, updatedIso);
    assert r == [NewIdea(form, member, nowMs, createdIso, updatedIso)] + ideas;
  }

  /** `prev.filter(i => i.id !== id)`. */
  function WithoutIdea(ideas: seq<Idea>, id: string): seq<Idea>
  {
    Filter(ideas, (x: Idea) => x.id != id)
  }

  lemma WithoutIdeaExactly(ideas: seq<Idea>, id: string)
    ensures forall x :: x in WithoutIdea(ideas, id) <==> x in ideas && x.id != id
  {
    FilterExactly(ideas, (x: Idea) => x.id != id);
  }

  /** What the save button leads to. */
  datatype SaveOutcome = MissingFields | UnknownMember | SaveFailed | Saved(member: Member)

  /**
   * `handleSave`'s checks in order: both the name and the content must be
   * non-blank, then the chosen member must exist, then the idea store's
   * write (`saveOk`) must succeed.
   */
  function SaveResult(form: IdeaForm, members: seq<Member>, saveOk: bool): SaveOutcome
  {
    if Trim(form.ideaName) == "" || Trim(form.content) == "" then MissingFields
    else
      match FindMember(members, form.memberId)
      case None => UnknownMember
      case Some(member) => if saveOk then Saved(member) else SaveFailed
  }

  predicate AllWhitespace(s: string)
  {
    forall i :: 0 <= i < |s| ==> IsWhitespace(s[i])
  }

  /**
   * A save goes through exactly when neither text is all whitespace, the
   * member exists and the write succeeds; the idea is then filed under
   * that member.
   */
  lemma SaveResultCases(form: IdeaForm, members: seq<Member>, saveOk: bool)
    ensures var r := SaveResult(form, members, saveOk);
      && (r == MissingFields <==> (AllWhitespace(form.ideaName) || AllWhitespace(form.content)))
      && (r == UnknownMember <==>
            (!AllWhitespace(form.ideaName) && !AllWhitespace(form.content)
             && forall m :: m in members ==> m.id != form.memberId))
      && (r.Saved? <==>
            (!AllWhitespace(form.ideaName) && !AllWhitespace(form.content)
             && (exists m :: m in members && m.id == form.memberId) && saveOk))
      && (r.Saved? ==> r.member in members && r.member.id == form.memberId)
  {
    BlankIffAllWhitespace(form.ideaName);
    BlankIffAllWhitespace(form.content);
    var found := FindMember(members, form.memberId);
    if found.Some? {
      assert found.value in members && found.value.id == form.memberId;
    }
  }

  class IdeaBoard {
    var ideas: seq<Idea>
    var members: seq<Member>
    var form: IdeaForm
    var editingId: Option<string>
    var showAddForm: bool
    const store: Store

    constructor (store: Store)
      ensures this.store == store && ideas == [] && members == []
      ensures form == IdeaForm("", "", "", "") && editingId == None && !showAddForm
    {
      this.store := store;
      ideas := [];
      members := [];
      form := IdeaForm("", "", "", "");
      editingId := None;
      showAddForm := false;
    }

    /**
     * `loadData`: the members from the store, then the fetched ideas sorted
     * newest first (`None`: fetching them threw, and the list stays).
     */
    method LoadData(fetched: Option<seq<Idea>>)
      modifies this`members, this`ideas
      ensures MembersReadFrom(store.members, members)
      ensures store.configured ==> MemberIds(members) == store.members.Keys
      ensures fetched.Some? ==> ideas == SortByCreatedDesc(fetched.value)
      ensures fetched.Some? ==> NewestFirst(ideas) && multiset(ideas) == multiset(fetched.value)
      ensures fetched.None? ==> ideas == old(ideas)
    {
      members := store.GetMembers();
      if fetched.Some? {
        ideas := SortByCreatedDesc(fetched.value);
        SortByCreatedSorted(fetched.value);
      }
    }

    /**
     * `handleSave`: both the name and the content must be non-blank, and the
     * chosen member must exist; then the edited idea replaces the one being
     * edited, or a new idea goes first. Nothing changes unless the idea
     * store's write (`saveOk`) succeeds.
     */
    method Save(nowMs: nat, createdIso: string, updatedIso: string, saveOk: bool) returns (r: SaveOutcome)
      modifies this`ideas, this`editingId, this`showAddForm
      ensures r == SaveResult(old(form), old(members), saveOk)
      ensures !r.Saved? ==> ideas == old(ideas) && editingId == old(editingId) && showAddForm == old(showAddForm)
      ensures r.Saved? ==>
        ideas == SavedIdeas(old(ideas), old(editingId), old(form), r.member, nowMs, createdIso, updatedIso)
        && !showAddForm && editingId == None
    {
      r := SaveResult(form, members, saveOk);
      if r.Saved? {
        ideas := SavedIdeas(ideas, editingId, form, r.member, nowMs, createdIso, updatedIso);
        showAddForm := false;
        editingId := None;
      }
    }

    /** `handleDelete`: only once confirmed and once the idea store's delete (`deleteOk`) succeeds. */
    method Delete(id: string, confirmed: bool, deleteOk: bool)
      modifies this`ideas
      ensures confirmed && deleteOk ==> ideas == WithoutIdea(old(ideas), id)
      ensures confirmed && deleteOk ==> forall x :: x in ideas <==> x in old(ideas) && x.id != id
      ensures !(confirmed && deleteOk) ==> ideas == old(ideas)
      ensures members == old(members) && form == old(form) && editingId == old(editingId)
    {
      if confirmed && deleteOk {
        WithoutIdeaExactly(ideas, id);
        ideas := WithoutIdea(ideas, id);
      }
    }
  }
}
