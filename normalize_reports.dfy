/**
 * The maintenance script scripts/normalize-reports.ts: every stored report
 * document gets, with merge, its id and four texts as strings and a fresh
 * `updatedAt`; other fields (a stored teaser, say) are left as they were.
 *
 * The script talks to the database directly, so it writes the store's
 * report map without the application's configuration guard. The clock
 * reading is a parameter.
 */
module NormalizeReports {
  import opened Values
  import opened Firestore
  import NormalizeMembers

  /** `str(v)`: a string as is, `null` and `undefined` as `''`, anything else `String(v)`. */
  function Str(v: Option<Value>): (s: string)
    ensures v.Some? && v.value.Str? ==> s == v.value.s
    ensures v.None? || v == Some(Null) ==> s == ""
  {
    match v
    case Some(Str(x)) => x
    case Some(Null) => ""
    case None => ""
    case Some(other) => Display(other)
  }

  /** The two scripts' helpers agree: this `str` is the member script's `str` with fallback `''`. */
  lemma StrIsStrOrEmpty(v: Option<Value>)
    ensures Str(v) == NormalizeMembers.StrOr(v, "")
  {
  }

  /** The keys of a normalised report document. */
  const NormalizedKeys: set<string> := {"id", "nickname", "currentTrial", "progress", "result", "updatedAt"}

  /** The value `normalized` holds under `key`; none is `undefined`, so none is deleted. */
  function NormalizedText(docId: string, data: Doc, nowIso: string, key: string): string
  {
    if key == "id" then Str(Some(OrElse(Field(data, "id"), Values.Str(docId))))
    else if key == "updatedAt" then nowIso
    else Str(Field(data, key))
  }

  /** The document written by `setDoc(..., { merge: true })`. */
  function NormalizedReport(docId: string, data: Doc, nowIso: string): Doc
  {
    map k | k in NormalizedKeys :: Values.Str(NormalizedText(docId, data, nowIso, k))
  }

  /** One document after its `setDoc` with merge. */
  function Normalized(docId: string, data: Doc, nowIso: string): Doc
  {
    Merge(data, NormalizedReport(docId, data, nowIso))
  }

  /** Exactly the six schema keys are written. */
  lemma NormalizedKeysExactly(docId: string, data: Doc, nowIso: string)
    ensures NormalizedReport(docId, data, nowIso).Keys == NormalizedKeys
  {
  }

  /**
   * The id falls back to the document id; the texts are kept as strings,
   * `''` when missing or `null`; `updatedAt` is the new time.
   */
  lemma NormalizedFields(docId: string, data: Doc, nowIso: string)
    ensures var d := NormalizedReport(docId, data, nowIso);
      && d["id"] == Values.Str(if TruthyField(Field(data, "id")) then Display(data["id"]) else docId)
      && (forall k :: k in {"nickname", "currentTrial", "progress", "result"} ==>
          d[k] == Values.Str(if k in data && data[k] != Null then Display(data[k]) else ""))
      && d["updatedAt"] == Values.Str(nowIso)
  {
  }

  /** Fields outside the schema, such as a stored teaser, survive the merge. */
  lemma NormalizeKeepsOtherFields(docId: string, data: Doc, nowIso: string, key: string)
    requires key in data && key !in NormalizedKeys
    ensures key in Normalized(docId, data, nowIso) && Normalized(docId, data, nowIso)[key] == data[key]
  {
  }

  /**
   * After the script the application reads every text it normalised:
   * `getReports` shows `String(v)` where it showed `''` for a non-string.
   */
  lemma ReadAfterNormalize(docId: string, data: Doc, nowIso: string)
    ensures var r := ReadReport(docId, Normalized(docId, data, nowIso));
      && r.nickname == Str(Field(data, "nickname")) && r.currentTrial == Str(Field(data, "currentTrial"))
      && r.progress == Str(Field(data, "progress")) && r.result == Str(Field(data, "result"))
  {
    var n := NormalizedReport(docId, data, nowIso);
    assert n["nickname"] == Values.Str(Str(Field(data, "nickname")));
    assert n["currentTrial"] == Values.Str(Str(Field(data, "currentTrial")));
    assert n["progress"] == Values.Str(Str(Field(data, "progress")));
    assert n["result"] == Values.Str(Str(Field(data, "result")));
  }

  /** A normalised document is already normal: running the script twice with the same clock is running it once. */
  lemma NormalizeIdempotent(docId: string, data: Doc, nowIso: string)
    ensures Normalized(docId, Normalized(docId, data, nowIso), nowIso) == Normalized(docId, data, nowIso)
  {
    NormalizedRecordFixed(docId, data, nowIso);
    MergeTwice(data, NormalizedReport(docId, data, nowIso));
  }

  /** Normalising the merged document writes the same record again. */
  lemma NormalizedRecordFixed(docId: string, data: Doc, nowIso: string)
    ensures NormalizedReport(docId, Normalized(docId, data, nowIso), nowIso) == NormalizedReport(docId, data, nowIso)
  {
    var n := NormalizedReport(docId, data, nowIso);
    var again := NormalizedReport(docId, Normalized(docId, data, nowIso), nowIso);
    assert again.Keys == n.Keys;
    forall k | k in n ensures again[k] == n[k] {
      var once := Normalized(docId, data, nowIso);
      assert Field(once, k) == Some(Values.Str(NormalizedText(docId, data, nowIso, k)));
      TextOfWritten(docId, data, once, nowIso, k);
    }
  }

  /** A document holding the normalised text under `k` normalises to that text again. */
  lemma TextOfWritten(docId: string, data: Doc, once: Doc, nowIso: string, k: string)
    requires Field(once, k) == Some(Values.Str(NormalizedText(docId, data, nowIso, k)))
    ensures NormalizedText(docId, once, nowIso, k) == NormalizedText(docId, data, nowIso, k)
  {
    if k == "id" && TruthyField(Field(data, "id")) {
      Values.TruthyDisplayNonEmpty(data["id"]);
    }
  }

  /** The record written for a document of the snapshot. */
  function NormalizeWith(nowIso: string): (string, Doc) -> Doc
  {
    (id, data) => NormalizedReport(id, data, nowIso)
  }

  /**
   * `run`: for each document of the snapshot of `reports`, in snapshot
   * order, merge its normalised record into it; `count` is the number of
   * documents written.
   */
  method Run(store: Store, snap: seq<(string, Doc)>, nowIso: string) returns (count: nat)
    requires IsSnapshot(snap, store.reports)
    modifies store`reports
    ensures count == |snap|
    ensures store.reports == UpsertAll(old(store.reports), Records(snap, NormalizeWith(nowIso)))
  {
    var written;
    written, count := UpsertEach(store.reports, snap, NormalizeWith(nowIso));
    store.reports := written;
  }

  /**
   * What the run leaves: the same documents, each one the merge of what it
   * held with its normalised record — whatever the snapshot order.
   */
  lemma RunNormalizesEach(reports: map<string, Doc>, snap: seq<(string, Doc)>, nowIso: string)
    requires IsSnapshot(snap, reports)
    ensures var after := UpsertAll(reports, Records(snap, NormalizeWith(nowIso)));
      && after.Keys == reports.Keys
      && forall id :: id in reports ==> after[id] == Normalized(id, reports[id], nowIso)
  {
    UpsertSnapshotInPlace(reports, snap, NormalizeWith(nowIso));
  }
}
