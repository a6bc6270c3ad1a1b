/**
 * The maintenance script scripts/seed-reports.ts: for each member document
 * a report document with the same id is merged into the report collection,
 * carrying a display nickname and empty texts.
 *
 * The script talks to the database directly, so it writes the store's
 * report map without the application's configuration guard. The clock
 * reading is a parameter.
 */
module SeedReports {
  import opened Values
  import opened Firestore
  import Data

  /**
   * `nickname`: the member's nickname when it is a string that is not blank
   * after trimming, otherwise `m.name || id`.
   */
  function NicknameValue(docId: string, m: Doc): Value
  {
    match Field(m, "nickname")
    case Some(Str(s)) => if Trim(s) != "" then Str(s) else OrElse(Field(m, "name"), Str(docId))
    case _ => OrElse(Field(m, "name"), Str(docId))
  }

  /** `String(nickname || id)`: the nickname the report gets. */
  function SeedNickname(docId: string, m: Doc): string
  {
    Display(OrElse(Some(NicknameValue(docId, m)), Str(docId)))
  }

  /** The member has a nickname string that is not blank. */
  predicate HasNickname(m: Doc)
  {
    "nickname" in m && m["nickname"].Str? && Trim(m["nickname"].s) != ""
  }

  /** The three cases of the nickname: a non-blank nickname, else a truthy name, else the document id. */
  lemma SeedNicknameCases(docId: string, m: Doc)
    ensures HasNickname(m) ==> SeedNickname(docId, m) == m["nickname"].s
    ensures !HasNickname(m) && TruthyField(Field(m, "name")) ==> SeedNickname(docId, m) == Display(m["name"])
    ensures !HasNickname(m) && !TruthyField(Field(m, "name")) ==> SeedNickname(docId, m) == docId
  {
    if HasNickname(m) {
      assert m["nickname"].s != "";
    }
  }

  /** A report seeded for a member with a non-empty id always has a non-empty nickname. */
  lemma SeedNicknameNonEmpty(docId: string, m: Doc)
    requires docId != ""
    ensures SeedNickname(docId, m) != ""
  {
    var v := NicknameValue(docId, m);
    if Truthy(v) {
      match v
      case Num(n) => assert NatToString(if n < 0 then -n else n) != "";
      case _ =>
    }
  }

  /** The record merged into `reports/{id}`. */
  function SeedRecord(docId: string, m: Doc, nowIso: string): Doc
  {
    map[
      "id" := Str(docId), "nickname" := Str(SeedNickname(docId, m)),
      "currentTrial" := Str(""), "progress" := Str(""), "result" := Str(""),
      "updatedAt" := Str(nowIso)]
  }

  /**
   * Read back, a seeded report is the member's nickname with empty texts —
   * also when the report existed before: the merge overwrites its texts.
   */
  lemma SeededReportReadsBack(docId: string, m: Doc, stored: Doc, nowIso: string)
    ensures ReadReport(docId, Merge(stored, SeedRecord(docId, m, nowIso)))
      == Data.Report(docId, SeedNickname(docId, m), "", "", "", None)
  {
    var d := Merge(stored, SeedRecord(docId, m, nowIso));
    assert d["nickname"] == Str(SeedNickname(docId, m));
    assert d["currentTrial"] == Str("") && d["progress"] == Str("") && d["result"] == Str("");
  }

  /** The record written for a member document of the snapshot. */
  function SeedWith(nowIso: string): (string, Doc) -> Doc
  {
    (id, m) => SeedRecord(id, m, nowIso)
  }

  /**
   * `run`: for each document of the snapshot of `members`, in snapshot
   * order, merge a seeded report under the same id; `created` is the
   * number of reports written.
   */
  method Run(store: Store, snap: seq<(string, Doc)>, nowIso: string) returns (created: nat)
    requires IsSnapshot(snap, store.members)
    modifies store`reports
    ensures created == |snap|
    ensures store.reports == UpsertAll(old(store.reports), Records(snap, SeedWith(nowIso)))
  {
    var written;
    written, created := UpsertEach(store.reports, snap, SeedWith(nowIso));
    store.reports := written;
  }

  /**
   * What the run leaves: a report for every member, under the member's id
   * and read back as the seeded report; reports of ids that are not
   * members are as they were.
   */
  lemma RunSeedsEach(members: map<string, Doc>, reports: map<string, Doc>, snap: seq<(string, Doc)>, nowIso: string)
    requires IsSnapshot(snap, members)
    ensures var after := UpsertAll(reports, Records(snap, SeedWith(nowIso)));
      && after.Keys == reports.Keys + members.Keys
      && (forall id :: id in members ==>
            ReadReport(id, after[id]) == Data.Report(id, SeedNickname(id, members[id]), "", "", "", None))
      && (forall id :: id in reports && id !in members ==> after[id] == reports[id])
  {
    var after := UpsertAll(reports, Records(snap, SeedWith(nowIso)));
    UpsertEachResult(reports, snap, SeedWith(nowIso));
    forall id | id in members
      ensures ReadReport(id, after[id]) == Data.Report(id, SeedNickname(id, members[id]), "", "", "", None)
    {
      var e :| e in snap && e.0 == id;
      var i :| 0 <= i < |snap| && snap[i] == e;
      assert after[id] == Merge(DocOrEmpty(reports, id), SeedRecord(id, members[id], nowIso));
      SeededReportReadsBack(id, members[id], DocOrEmpty(reports, id), nowIso);
    }
  }
}
