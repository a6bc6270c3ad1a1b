/**
 * The Firestore helpers of lib/firestore.ts: sanitising records on write,
 * normalising them on read, the single-document upserts and deletes, and the
 * "full replace" bulk saves that delete every stored id absent from the new
 * list.
 *
 * The store is a class holding one map per collection (`members`, `reports`)
 * from document id to document. `setDoc(..., { merge: true })` is `Merge`:
 * the written fields override, every other stored field is kept.
 */
module Firestore {
  import opened Values
  import opened Data

  datatype StoreError = NotConfigured

  datatype Outcome = Done | Failed(error: StoreError)

  // ---------------------------------------------------------------------
  // Documents and merge-upserts

  /** `setDoc(ref, written, { merge: true })` applied to the stored document. */
  function Merge(stored: Doc, written: Doc): (d: Doc)
    ensures d.Keys == stored.Keys + written.Keys
    ensures forall f :: f in written ==> d[f] == written[f]
    ensures forall f :: f in stored && f !in written ==> d[f] == stored[f]
  {
    stored + written
  }

  /** The stored document, or an empty one when the id is absent. */
  function DocOrEmpty(store: map<string, Doc>, id: string): Doc
  {
    if id in store then store[id] else map[]
  }

  /** One merge-upsert of `rec` under `id`. */
  function Upsert(store: map<string, Doc>, id: string, rec: Doc): map<string, Doc>
  {
    store[id := Merge(DocOrEmpty(store, id), rec)]
  }

  /** The upserts of a list of (id, record) entries, in list order. */
  function UpsertAll(store: map<string, Doc>, es: seq<(string, Doc)>): map<string, Doc>
    decreases |es|
  {
    if es == [] then store
    else Upsert(UpsertAll(store, es[..|es| - 1]), es[|es| - 1].0, es[|es| - 1].1)
  }

  function EntryIds(es: seq<(string, Doc)>): set<string>
  {
    set e | e in es :: e.0
  }

  /** The full-replace synchronisation: drop the stored ids absent from `es`, then upsert every entry. */
  function Sync(store: map<string, Doc>, es: seq<(string, Doc)>): map<string, Doc>
  {
    UpsertAll(store - (store.Keys - EntryIds(es)), es)
  }

  lemma {:induction false} UpsertAllKeys(store: map<string, Doc>, es: seq<(string, Doc)>)
    ensures UpsertAll(store, es).Keys == store.Keys + EntryIds(es)
    decreases |es|
  {
    if es != [] {
      var init := es[..|es| - 1];
      UpsertAllKeys(store, init);
      assert es == init + [es[|es| - 1]];
      assert EntryIds(es) == EntryIds(init) + {es[|es| - 1].0};
    }
  }

  /** After a full replace the stored id set is exactly the id set of the new list. */
  lemma SyncKeys(store: map<string, Doc>, es: seq<(string, Doc)>)
    ensures Sync(store, es).Keys == EntryIds(es)
    ensures forall id :: id in store && id !in EntryIds(es) ==> id !in Sync(store, es)
    ensures forall id :: id in EntryIds(es) ==> id in Sync(store, es)
  {
    UpsertAllKeys(store - (store.Keys - EntryIds(es)), es);
  }

  /** An upsert list leaves the documents whose ids it does not mention as they were. */
  lemma {:induction false} UpsertAllUntouched(store: map<string, Doc>, es: seq<(string, Doc)>, id: string)
    requires id !in EntryIds(es) && id in store
    ensures id in UpsertAll(store, es) && UpsertAll(store, es)[id] == store[id]
    decreases |es|
  {
    if es != [] {
      var init := es[..|es| - 1];
      assert EntryIds(init) <= EntryIds(es);
      assert es[|es| - 1] in es;
      UpsertAllUntouched(store, init, id);
    }
  }

  predicate DistinctIds(es: seq<(string, Doc)>)
  {
    forall i, j :: 0 <= i < j < |es| ==> es[i].0 != es[j].0
  }

  /** With distinct ids, the last entry's id occurs nowhere before it. */
  lemma LastIdFresh(es: seq<(string, Doc)>)
    requires DistinctIds(es) && es != []
    ensures es[|es| - 1].0 !in EntryIds(es[..|es| - 1])
  {
    var init := es[..|es| - 1];
    forall e | e in init
      ensures e.0 != es[|es| - 1].0
    {
      var j :| 0 <= j < |init| && init[j] == e;
      assert es[j] == e;
    }
  }

  /** With distinct ids, each entry ends up merged once over the document stored before. */
  lemma {:induction false} UpsertAllDistinct(store: map<string, Doc>, es: seq<(string, Doc)>, i: nat)
    requires DistinctIds(es) && i < |es|
    ensures es[i].0 in UpsertAll(store, es)
    ensures UpsertAll(store, es)[es[i].0] == Merge(DocOrEmpty(store, es[i].0), es[i].1)
    decreases |es|
  {
    var init := es[..|es| - 1];
    if i < |es| - 1 {
      UpsertAllDistinct(store, init, i);
    } else {
      LastIdFresh(es);
      UpsertAllKeys(store, init);
      if es[i].0 in store {
        UpsertAllUntouched(store, init, es[i].0);
      }
    }
  }

  /** A full replace with distinct ids stores each new record merged over the document it replaces. */
  lemma SyncDistinct(store: map<string, Doc>, es: seq<(string, Doc)>, i: nat)
    requires DistinctIds(es) && i < |es|
    ensures es[i].0 in Sync(store, es)
    ensures Sync(store, es)[es[i].0] == Merge(DocOrEmpty(store, es[i].0), es[i].1)
  {
    var kept := store - (store.Keys - EntryIds(es));
    assert es[i] in es;
    assert DocOrEmpty(kept, es[i].0) == DocOrEmpty(store, es[i].0);
    UpsertAllDistinct(kept, es, i);
  }

  /** Writing the same record twice with merge is writing it once. */
  lemma MergeTwice(stored: Doc, rec: Doc)
    ensures Merge(Merge(stored, rec), rec) == Merge(stored, rec)
  {
  }

  /** Repeating a full replace with the same distinct entries changes nothing. */
  lemma SyncIdempotent(store: map<string, Doc>, es: seq<(string, Doc)>)
    requires DistinctIds(es)
    ensures Sync(Sync(store, es), es) == Sync(store, es)
  {
    var once := Sync(store, es);
    SyncKeys(store, es);
    SyncKeys(once, es);
    forall id | id in once
      ensures Sync(once, es)[id] == once[id]
    {
      var i :| 0 <= i < |es| && es[i].0 == id;
      SyncDistinct(store, es, i);
      SyncDistinct(once, es, i);
      MergeTwice(DocOrEmpty(store, id), es[i].1);
    }
  }

  // ---------------------------------------------------------------------
  // Writing a member

  /** `sanitizeUrl`: a `blob:` URL becomes `undefined`; anything else is kept. */
  function SanitizeUrl(url: Option<string>): (r: Option<string>)
    ensures r.Some? ==> r == url && !StartsWith(r.value, "blob:")
    ensures r.None? && url.Some? ==> StartsWith(url.value, "blob:")
  {
    if url.Some? && StartsWith(url.value, "blob:") then None else url
  }

  /** `member.f || ''` for an optional text property. */
  function OrEmpty(s: Option<string>): string
  {
    if s.Some? then s.value else ""
  }

  function AsValue(s: Option<string>): Option<Value>
  {
    if s.Some? then Some(Str(s.value)) else None
  }

  /** Firestore rejects `undefined`: drop exactly the undefined keys, keeping empty strings. */
  function StripUndefined(o: map<string, Option<Value>>): (d: Doc)
    ensures d.Keys == set k | k in o && o[k].Some?
    ensures forall k :: k in d ==> o[k] == Some(d[k])
  {
    map k | k in o && o[k].Some? :: o[k].value
  }

  /** The text fields `saveMember` always writes. */
  const MemberTextKeys: set<string> :=
    {"id", "name", "nickname", "tagline", "birthdate", "hometown", "hobbies", "thoughts", "career"}

  /** A field written only when its value is defined (Firestore rejects `undefined`, so such keys are deleted). */
  function WithDefined(d: Doc, key: string, v: Option<string>): Doc
  {
    if v.Some? then d[key := Str(v.value)] else d
  }

  /**
   * The fields `saveMember` writes: the spread member with its overrides —
   * sanitised images, `''` for absent optional text, the birth date under
   * `birthdate` — then `birthDate` deleted and the `undefined` keys (the
   * images that were absent or `blob:`) deleted.
   */
  function MemberRecord(m: Member): (d: Doc)
    ensures MemberTextKeys <= d.Keys && "birthDate" !in d
    ensures d["birthdate"] == Str(OrEmpty(m.birthDate))
    ensures d["id"] == Str(m.id) && d["name"] == Str(m.name)
    ensures d["nickname"] == Str(m.nickname) && d["tagline"] == Str(m.tagline)
    ensures d["hometown"] == Str(OrEmpty(m.hometown)) && d["hobbies"] == Str(OrEmpty(m.hobbies))
    ensures d["thoughts"] == Str(OrEmpty(m.thoughts)) && d["career"] == Str(OrEmpty(m.career))
    ensures ("imageNo1" in d <==> SanitizeUrl(m.imageNo1).Some?) && ("imageNo2" in d <==> SanitizeUrl(m.imageNo2).Some?)
    ensures "imageNo1" in d ==> d["imageNo1"] == Str(m.imageNo1.value) && !StartsWith(m.imageNo1.value, "blob:")
    ensures "imageNo2" in d ==> d["imageNo2"] == Str(m.imageNo2.value) && !StartsWith(m.imageNo2.value, "blob:")
  {
    var texts := map[
      "id" := Str(m.id), "name" := Str(m.name), "nickname" := Str(m.nickname), "tagline" := Str(m.tagline),
      "birthdate" := Str(OrEmpty(m.birthDate)),
      "hometown" := Str(OrEmpty(m.hometown)), "hobbies" := Str(OrEmpty(m.hobbies)),
      "thoughts" := Str(OrEmpty(m.thoughts)), "career" := Str(OrEmpty(m.career))];
    WithDefined(WithDefined(texts, "imageNo1", SanitizeUrl(m.imageNo1)), "imageNo2", SanitizeUrl(m.imageNo2))
  }

  /** Exactly the text fields, plus each image that is defined and not a `blob:` URL. */
  lemma MemberRecordKeys(m: Member)
    ensures MemberRecord(m).Keys == MemberTextKeys
      + (if SanitizeUrl(m.imageNo1).Some? then {"imageNo1"} else {})
      + (if SanitizeUrl(m.imageNo2).Some? then {"imageNo2"} else {})
  {
  }

  // ---------------------------------------------------------------------
  // Writing a report

  /** The fields `saveReport` writes: never a teaser. */
  function ReportRecord(r: Report): (d: Doc)
    ensures d.Keys == {"id", "nickname", "currentTrial", "progress", "result"}
    ensures d["id"] == Str(r.id) && d["nickname"] == Str(r.nickname)
    ensures d["currentTrial"] == Str(r.currentTrial) && d["progress"] == Str(r.progress)
    ensures d["result"] == Str(r.result)
  {
    StripUndefined(map[
      "id" := Some(Str(r.id)), "nickname" := Some(Str(r.nickname)),
      "currentTrial" := Some(Str(r.currentTrial)), "progress" := Some(Str(r.progress)),
      "result" := Some(Str(r.result))])
  }

  /** The record does not depend on the teaser. */
  lemma ReportRecordIgnoresTeaser(r: Report, teaser: Option<string>)
    ensures ReportRecord(r.(teaser := teaser)) == ReportRecord(r)
  {
  }

  function MemberEntries(ms: seq<Member>): (es: seq<(string, Doc)>)
    ensures |es| == |ms|
    ensures forall i :: 0 <= i < |ms| ==> es[i] == (ms[i].id, MemberRecord(ms[i]))
  {
    seq(|ms|, i requires 0 <= i < |ms| => (ms[i].id, MemberRecord(ms[i])))
  }

  function ReportEntries(rs: seq<Report>): (es: seq<(string, Doc)>)
    ensures |es| == |rs|
    ensures forall i :: 0 <= i < |rs| ==> es[i] == (rs[i].id, ReportRecord(rs[i]))
  {
    seq(|rs|, i requires 0 <= i < |rs| => (rs[i].id, ReportRecord(rs[i])))
  }

  lemma ReportEntryIds(rs: seq<Report>)
    ensures EntryIds(ReportEntries(rs)) == ReportIds(rs)
  {
    var es := ReportEntries(rs);
    forall id | id in ReportIds(rs) ensures id in EntryIds(es) {
      var i :| 0 <= i < |rs| && rs[i].id == id;
      assert es[i] in es;
    }
  }

  lemma MemberEntryIds(ms: seq<Member>)
    ensures EntryIds(MemberEntries(ms)) == MemberIds(ms)
  {
    var es := MemberEntries(ms);
    forall id | id in MemberIds(ms) ensures id in EntryIds(es) {
      var i :| 0 <= i < |ms| && ms[i].id == id;
      assert es[i] in es;
    }
  }

  lemma UpsertAllPrefix(store: map<string, Doc>, es: seq<(string, Doc)>, i: nat)
    requires i < |es|
    ensures UpsertAll(store, es[..i + 1]) == Upsert(UpsertAll(store, es[..i]), es[i].0, es[i].1)
  {
    assert es[..i + 1][..i] == es[..i];
  }

  // ---------------------------------------------------------------------
  // Reading

  /** `data.f || ''`, where a truthy non-string value is shown as `String(value)`. */
  function TextField(data: Doc, key: string): (s: string)
  {
    var v := Field(data, key);
    if TruthyField(v) then Display(v.value) else ""
  }

  /** An image URL on read: a `blob:` URL becomes absent. */
  function ImageField(data: Doc, key: string): (r: Option<string>)
  {
    if key !in data then None
    else match data[key]
      case Str(s) => if StartsWith(s, "blob:") then None else Some(s)
      case Null => None
      case Num(n) => Some(IntToString(n))
      case Bool(b) => Some(Display(Bool(b)))
  }

  /** The member `getMembers`/`getMember` build from a stored document. */
  function ReadMember(id: string, data: Doc): (m: Member)
    ensures m.id == id
  {
    Member(
      id, TextField(data, "name"), TextField(data, "nickname"), TextField(data, "tagline"),
      ImageField(data, "imageNo1"), ImageField(data, "imageNo2"),
      Some(if TextField(data, "birthdate") != "" then TextField(data, "birthdate") else TextField(data, "birthDate")),
      Some(TextField(data, "hometown")), Some(TextField(data, "hobbies")),
      Some(TextField(data, "thoughts")), Some(TextField(data, "career")))
  }

  lemma NoBlobInDisplay(v: Value)
    requires !v.Str?
    ensures !StartsWith(Display(v), "blob:")
  {
    var s := Display(v);
    if v.Num? && v.n >= 0 {
      assert IsDigit(NatToString(v.n)[0]);
    }
    assert s[0] != 'b';
    if |s| >= 5 {
      assert s[..5][0] == s[0];
    }
  }

  /** Reading never yields a `blob:` image URL, and every text property is defined. */
  lemma ReadMemberNormalised(id: string, data: Doc)
    ensures var m := ReadMember(id, data);
      (m.imageNo1.Some? ==> !StartsWith(m.imageNo1.value, "blob:")) &&
      (m.imageNo2.Some? ==> !StartsWith(m.imageNo2.value, "blob:")) &&
      m.birthDate.Some? && m.hometown.Some? && m.hobbies.Some? && m.thoughts.Some? && m.career.Some?
  {
    if "imageNo1" in data && !data["imageNo1"].Str? { NoBlobInDisplay(data["imageNo1"]); }
    if "imageNo2" in data && !data["imageNo2"].Str? { NoBlobInDisplay(data["imageNo2"]); }
  }

  /** `typeof data.f === 'string' ? data.f : ''`. */
  function StringField(data: Doc, key: string): string
  {
    if key in data && data[key].Str? then data[key].s else ""
  }

  /** The report `getReports` builds from a stored document: strings only, no teaser. */
  function ReadReport(id: string, data: Doc): (r: Report)
    ensures r.id == id && r.teaser == None
  {
    Report(id, StringField(data, "nickname"), StringField(data, "currentTrial"),
      StringField(data, "progress"), StringField(data, "result"), None)
  }

  /** Saving then reading a report gives it back without its teaser, whatever was stored before. */
  lemma ReportRoundTrip(r: Report, stored: Doc)
    ensures ReadReport(r.id, Merge(stored, ReportRecord(r))) == r.(teaser := None)
  {
  }

  /** A written string field reads back as itself. */
  lemma WrittenText(d: Doc, key: string, x: string)
    requires key in d && d[key] == Str(x)
    ensures TextField(d, key) == x
  {
  }

  /** Saving then reading a member gives back its text fields, with `''` for the absent ones. */
  lemma MemberRoundTripText(m: Member, stored: Doc)
    ensures var back := ReadMember(m.id, Merge(stored, MemberRecord(m)));
      && back.name == m.name && back.nickname == m.nickname && back.tagline == m.tagline
      && back.hometown == Some(OrEmpty(m.hometown)) && back.hobbies == Some(OrEmpty(m.hobbies))
      && back.thoughts == Some(OrEmpty(m.thoughts)) && back.career == Some(OrEmpty(m.career))
  {
    var d := Merge(stored, MemberRecord(m));
    WrittenText(d, "name", m.name);
    WrittenText(d, "nickname", m.nickname);
    WrittenText(d, "tagline", m.tagline);
    WrittenText(d, "hometown", OrEmpty(m.hometown));
    WrittenText(d, "hobbies", OrEmpty(m.hobbies));
    WrittenText(d, "thoughts", OrEmpty(m.thoughts));
    WrittenText(d, "career", OrEmpty(m.career));
  }

  /**
   * Saving then reading a member: an empty birth date falls through to the
   * legacy `birthDate` field the document held before the merge.
   */
  lemma MemberRoundTripBirthDate(m: Member, stored: Doc)
    ensures ReadMember(m.id, Merge(stored, MemberRecord(m))).birthDate
      == Some(if OrEmpty(m.birthDate) != "" then OrEmpty(m.birthDate) else TextField(stored, "birthDate"))
  {
    var rec := MemberRecord(m);
    var d := Merge(stored, rec);
    WrittenText(d, "birthdate", OrEmpty(m.birthDate));
    assert "birthDate" !in rec;
    assert Field(d, "birthDate") == Field(stored, "birthDate");
  }

  /** An image field the record does not write reads as it was stored; a written one reads as written. */
  lemma MergedImage(stored: Doc, rec: Doc, key: string, url: Option<string>)
    requires url.Some? ==> key in rec && rec[key] == Str(url.value) && !StartsWith(url.value, "blob:")
    requires url.None? ==> key !in rec
    ensures ImageField(Merge(stored, rec), key) == if url.Some? then url else ImageField(stored, key)
  {
  }

  /**
   * Saving then reading a member: an image that was not written (absent or
   * `blob:`) reads as whatever the document held before the merge.
   */
  lemma MemberRoundTripImages(m: Member, stored: Doc)
    ensures var back := ReadMember(m.id, Merge(stored, MemberRecord(m)));
      && back.imageNo1 == (if SanitizeUrl(m.imageNo1).Some? then SanitizeUrl(m.imageNo1) else ImageField(stored, "imageNo1"))
      && back.imageNo2 == (if SanitizeUrl(m.imageNo2).Some? then SanitizeUrl(m.imageNo2) else ImageField(stored, "imageNo2"))
  {
    var rec := MemberRecord(m);
    MergedImage(stored, rec, "imageNo1", SanitizeUrl(m.imageNo1));
    MergedImage(stored, rec, "imageNo2", SanitizeUrl(m.imageNo2));
  }

  /** Every member of `r` is the normalised form of the document stored under its id. */
  predicate MembersReadFrom(store: map<string, Doc>, r: seq<Member>)
  {
    forall i :: 0 <= i < |r| ==> r[i].id in store && r[i] == ReadMember(r[i].id, store[r[i].id])
  }

  lemma MembersReadFromAppend(store: map<string, Doc>, r: seq<Member>, id: string)
    requires MembersReadFrom(store, r) && id in store
    ensures MembersReadFrom(store, r + [ReadMember(id, store[id])])
  {
    var r' := r + [ReadMember(id, store[id])];
    forall i | 0 <= i < |r'|
      ensures r'[i].id in store && r'[i] == ReadMember(r'[i].id, store[r'[i].id])
    {
      if i < |r| {
        assert r'[i] == r[i];
      }
    }
  }

  /** Every report of `r` is the normalised form of the document stored under its id. */
  predicate ReportsReadFrom(store: map<string, Doc>, r: seq<Report>)
  {
    forall i :: 0 <= i < |r| ==> r[i].id in store && r[i] == ReadReport(r[i].id, store[r[i].id])
  }

  lemma ReportsReadFromAppend(store: map<string, Doc>, r: seq<Report>, id: string)
    requires ReportsReadFrom(store, r) && id in store
    ensures ReportsReadFrom(store, r + [ReadReport(id, store[id])])
  {
    var r' := r + [ReadReport(id, store[id])];
    forall i | 0 <= i < |r'|
      ensures r'[i].id in store && r'[i] == ReadReport(r'[i].id, store[r'[i].id])
    {
      if i < |r| {
        assert r'[i] == r[i];
      }
    }
  }

  /** No stored member document holds a `blob:` image URL. */
  ghost predicate NoBlobImages(store: map<string, Doc>)
  {
    forall id, f :: id in store && f in store[id] && (f == "imageNo1" || f == "imageNo2") ==>
      !(store[id][f].Str? && StartsWith(store[id][f].s, "blob:"))
  }

  /** Writing a member never introduces a `blob:` URL into the store. */
  lemma UpsertMemberNoBlob(store: map<string, Doc>, m: Member)
    requires NoBlobImages(store)
    ensures NoBlobImages(Upsert(store, m.id, MemberRecord(m)))
  {
  }

  // ---------------------------------------------------------------------
  // Writing one record per document of a snapshot

  /** The (id, record) entries written for the documents of a snapshot. */
  function Records(snap: seq<(string, Doc)>, record: (string, Doc) -> Doc): (es: seq<(string, Doc)>)
    ensures |es| == |snap|
    ensures forall i :: 0 <= i < |snap| ==> es[i] == (snap[i].0, record(snap[i].0, snap[i].1))
    decreases |snap|
  {
    if snap == [] then []
    else
      var last := snap[|snap| - 1];
      Records(snap[..|snap| - 1], record) + [(last.0, record(last.0, last.1))]
  }

  /** `snap` lists the documents of `docs`, each exactly once: a query snapshot of the collection. */
  ghost predicate IsSnapshot(snap: seq<(string, Doc)>, docs: map<string, Doc>)
  {
    && DistinctIds(snap)
    && EntryIds(snap) == docs.Keys
    && (forall i :: 0 <= i < |snap| ==> snap[i].0 in docs && docs[snap[i].0] == snap[i].1)
  }

  /**
   * The loop of the maintenance scripts: for each document `(id, data)` of
   * a snapshot, in snapshot order, `setDoc(doc(db, collection, id),
   * record(id, data), { merge: true })` into `target`, and `count++`.
   */
  method UpsertEach(target: map<string, Doc>, snap: seq<(string, Doc)>, record: (string, Doc) -> Doc)
    returns (written: map<string, Doc>, count: nat)
    ensures count == |snap|
    ensures written == UpsertAll(target, Records(snap, record))
  {
    written := target;
    count := 0;
    while count < |snap|
      invariant count <= |snap|
      invariant written == UpsertAll(target, Records(snap[..count], record))
    {
      var (id, data) := snap[count];
      ghost var es := Records(snap[..count + 1], record);
      assert es[..count] == Records(snap[..count], record);
      written := Upsert(written, id, record(id, data));
      count := count + 1;
    }
    assert snap[..count] == snap;
  }

  /**
   * What the loop leaves when the snapshot lists every document once: each
   * listed id holds its record merged over what `target` stored there, and
   * the other documents of `target` are as they were.
   */
  lemma UpsertEachResult(target: map<string, Doc>, snap: seq<(string, Doc)>, record: (string, Doc) -> Doc)
    requires DistinctIds(snap)
    ensures UpsertAll(target, Records(snap, record)).Keys == target.Keys + EntryIds(snap)
    ensures forall i :: 0 <= i < |snap| ==>
      UpsertAll(target, Records(snap, record))[snap[i].0] == Merge(DocOrEmpty(target, snap[i].0), record(snap[i].0, snap[i].1))
    ensures forall id :: id in target && id !in EntryIds(snap) ==> UpsertAll(target, Records(snap, record))[id] == target[id]
  {
    var es := Records(snap, record);
    assert EntryIds(es) == EntryIds(snap) by {
      forall id | id in EntryIds(es) ensures id in EntryIds(snap) {
        var e :| e in es && e.0 == id;
        var i :| 0 <= i < |es| && es[i] == e;
        assert snap[i] in snap;
      }
      forall id | id in EntryIds(snap) ensures id in EntryIds(es) {
        var e :| e in snap && e.0 == id;
        var i :| 0 <= i < |snap| && snap[i] == e;
        assert es[i] in es;
      }
    }
    UpsertAllKeys(target, es);
    forall i | 0 <= i < |snap|
      ensures UpsertAll(target, es)[snap[i].0] == Merge(DocOrEmpty(target, snap[i].0), record(snap[i].0, snap[i].1))
    {
      UpsertAllDistinct(target, es, i);
    }
    forall id | id in target && id !in EntryIds(snap) ensures UpsertAll(target, es)[id] == target[id] {
      UpsertAllUntouched(target, es, id);
    }
  }

  /** Every document of a collection merged with its own record. */
  function Rewritten(docs: map<string, Doc>, record: (string, Doc) -> Doc): map<string, Doc>
  {
    map id | id in docs :: Merge(docs[id], record(id, docs[id]))
  }

  /**
   * Writing back a record for each document of a snapshot of `docs` merges
   * every document with its own record and adds none — whatever the order
   * of the snapshot.
   */
  lemma UpsertSnapshotInPlace(docs: map<string, Doc>, snap: seq<(string, Doc)>, record: (string, Doc) -> Doc)
    requires IsSnapshot(snap, docs)
    ensures UpsertAll(docs, Records(snap, record)) == Rewritten(docs, record)
  {
    var after := UpsertAll(docs, Records(snap, record));
    var all := Rewritten(docs, record);
    UpsertEachResult(docs, snap, record);
    assert after.Keys == all.Keys;
    forall id | id in docs ensures after[id] == all[id] {
      UpsertSnapshotAt(docs, snap, record, id);
    }
  }

  lemma UpsertSnapshotAt(docs: map<string, Doc>, snap: seq<(string, Doc)>, record: (string, Doc) -> Doc, id: string)
    requires IsSnapshot(snap, docs) && id in docs
    ensures var after := UpsertAll(docs, Records(snap, record));
      id in after && after[id] == Merge(docs[id], record(id, docs[id]))
  {
    UpsertEachResult(docs, snap, record);
    var i := SnapshotIndex(snap, docs, id);
  }

  /** Where a document sits in a snapshot. */
  lemma SnapshotIndex(snap: seq<(string, Doc)>, docs: map<string, Doc>, id: string) returns (i: nat)
    requires IsSnapshot(snap, docs) && id in docs
    ensures i < |snap| && snap[i] == (id, docs[id])
  {
    var e :| e in snap && e.0 == id;
    i :| i < |snap| && snap[i] == e;
  }

  // ---------------------------------------------------------------------
  // The store

  class Store {
    /** Whether Firebase is configured (and a browser window exists). */
    const configured: bool
    var members: map<string, Doc>
    var reports: map<string, Doc>

    constructor (configured: bool, members: map<string, Doc>, reports: map<string, Doc>)
      ensures this.configured == configured
      ensures this.members == members && this.reports == reports
    {
      this.configured := configured;
      this.members := members;
      this.reports := reports;
    }

    /** `saveMember`: throws before writing when unconfigured; otherwise merges the sanitised record. */
    method SaveMember(m: Member) returns (r: Outcome)
      modifies this`members
      ensures r == if configured then Done else Failed(NotConfigured)
      ensures members == if configured then Upsert(old(members), m.id, MemberRecord(m)) else old(members)
    {
      if !configured {
        return Failed(NotConfigured);
      }
      members := Upsert(members, m.id, MemberRecord(m));
      r := Done;
    }

    /** `saveReport`: merges the five report fields under the report's id. */
    method SaveReport(rep: Report) returns (r: Outcome)
      modifies this`reports
      ensures r == if configured then Done else Failed(NotConfigured)
      ensures reports == if configured then Upsert(old(reports), rep.id, ReportRecord(rep)) else old(reports)
    {
      if !configured {
        return Failed(NotConfigured);
      }
      reports := Upsert(reports, rep.id, ReportRecord(rep));
      r := Done;
    }

    /** `deleteMember`. */
    method DeleteMember(id: string) returns (r: Outcome)
      modifies this`members
      ensures r == if configured then Done else Failed(NotConfigured)
      ensures members == if configured then old(members) - {id} else old(members)
    {
      if !configured {
        return Failed(NotConfigured);
      }
      members := members - {id};
      r := Done;
    }

    /** `deleteReport`. */
    method DeleteReport(id: string) returns (r: Outcome)
      modifies this`reports
      ensures r == if configured then Done else Failed(NotConfigured)
      ensures reports == if configured then old(reports) - {id} else old(reports)
    {
      if !configured {
        return Failed(NotConfigured);
      }
      reports := reports - {id};
      r := Done;
    }

    /** `saveMembers`: delete every stored id missing from `ms`, then upsert each member. */
    method SaveMembers(ms: seq<Member>) returns (r: Outcome)
      modifies this`members
      ensures r == if configured then Done else Failed(NotConfigured)
      ensures members == if configured then Sync(old(members), MemberEntries(ms)) else old(members)
    {
      if !configured {
        return Failed(NotConfigured);
      }
      MemberEntryIds(ms);
      DeleteStaleMembers(MemberIds(ms));
      UpsertMembers(ms);
      r := Done;
    }

    /** The first loop of `saveMembers`: one delete per stored id outside `keep`. */
    method DeleteStaleMembers(keep: set<string>)
      requires configured
      modifies this`members
      ensures members == old(members) - (old(members).Keys - keep)
    {
      var stale := members.Keys - keep;
      while stale != {}
        invariant stale <= old(members).Keys - keep
        invariant members == old(members) - ((old(members).Keys - keep) - stale)
        decreases stale
      {
        var id :| id in stale;
        var _ := DeleteMember(id);
        stale := stale - {id};
      }
    }

    /** The second loop of `saveMembers`: one merge per member, in order. */
    method UpsertMembers(ms: seq<Member>)
      requires configured
      modifies this`members
      ensures members == UpsertAll(old(members), MemberEntries(ms))
    {
      var es := MemberEntries(ms);
      var i := 0;
      while i < |ms|
        invariant 0 <= i <= |ms|
        invariant members == UpsertAll(old(members), es[..i])
      {
        UpsertAllPrefix(old(members), es, i);
        var _ := SaveMember(ms[i]);
        i := i + 1;
      }
      assert es[..|ms|] == es;
    }

    /** `saveReports`: delete every stored id missing from `rs`, then upsert each report. */
    method SaveReports(rs: seq<Report>) returns (r: Outcome)
      modifies this`reports
      ensures r == if configured then Done else Failed(NotConfigured)
      ensures reports == if configured then Sync(old(reports), ReportEntries(rs)) else old(reports)
    {
      if !configured {
        return Failed(NotConfigured);
      }
      ReportEntryIds(rs);
      DeleteStaleReports(ReportIds(rs));
      UpsertReports(rs);
      r := Done;
    }

    /** The first loop of `saveReports`: one delete per stored id outside `keep`. */
    method DeleteStaleReports(keep: set<string>)
      requires configured
      modifies this`reports
      ensures reports == old(reports) - (old(reports).Keys - keep)
    {
      var stale := reports.Keys - keep;
      while stale != {}
        invariant stale <= old(reports).Keys - keep
        invariant reports == old(reports) - ((old(reports).Keys - keep) - stale)
        decreases stale
      {
        var id :| id in stale;
        var _ := DeleteReport(id);
        stale := stale - {id};
      }
    }

    /** The second loop of `saveReports`: one merge per report, in order. */
    method UpsertReports(rs: seq<Report>)
      requires configured
      modifies this`reports
      ensures reports == UpsertAll(old(reports), ReportEntries(rs))
    {
      var es := ReportEntries(rs);
      var i := 0;
      while i < |rs|
        invariant 0 <= i <= |rs|
        invariant reports == UpsertAll(old(reports), es[..i])
      {
        UpsertAllPrefix(old(reports), es, i);
        var _ := SaveReport(rs[i]);
        i := i + 1;
      }
      assert es[..|rs|] == es;
    }

    /** `getMembers`: every stored member document, normalised; `[]` when unconfigured. */
    method GetMembers() returns (r: seq<Member>)
      ensures !configured ==> r == []
      ensures configured ==> MemberIds(r) == members.Keys && |r| == |members|
      ensures MembersReadFrom(members, r)
    {
      if !configured {
        return [];
      }
      var pending := members.Keys;
      r := [];
      while pending != {}
        invariant pending <= members.Keys
        invariant MemberIds(r) == members.Keys - pending
        invariant |r| + |pending| == |members.Keys|
        invariant MembersReadFrom(members, r)
        decreases pending
      {
        var id :| id in pending;
        var m := ReadMember(id, members[id]);
        MemberIdsAppend(r, m);
        MembersReadFromAppend(members, r, id);
        r := r + [m];
        pending := pending - {id};
      }
    }

    /** `getMember`: the normalised member, or `null` when absent or unconfigured. */
    method GetMember(id: string) returns (r: Option<Member>)
      ensures r.Some? <==> configured && id in members
      ensures r.Some? ==> r.value == ReadMember(id, members[id])
    {
      if !configured || id !in members {
        return None;
      }
      r := Some(ReadMember(id, members[id]));
    }

    /** `getReports`: every stored report document, normalised; `[]` when unconfigured. */
    method GetReports() returns (r: seq<Report>)
      ensures !configured ==> r == []
      ensures configured ==> ReportIds(r) == reports.Keys && |r| == |reports|
      ensures ReportsReadFrom(reports, r)
    {
      if !configured {
        return [];
      }
      var pending := reports.Keys;
      r := [];
      while pending != {}
        invariant pending <= reports.Keys
        invariant ReportIds(r) == reports.Keys - pending
        invariant |r| + |pending| == |reports.Keys|
        invariant ReportsReadFrom(reports, r)
        decreases pending
      {
        var id :| id in pending;
        ReportIdsAppend(r, ReadReport(id, reports[id]));
        ReportsReadFromAppend(reports, r, id);
        r := r + [ReadReport(id, reports[id])];
        pending := pending - {id};
      }
    }
  }
}
