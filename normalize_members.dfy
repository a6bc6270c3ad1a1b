/**
 * The maintenance script scripts/normalize-members.ts: every stored member
 * document is rewritten, with merge, to one schema of string fields — the
 * birth date under `birthdate`, `blob:` image URLs emptied, missing texts
 * as `''`, and a fresh `updatedAt`.
 *
 * The script talks to the database directly, so it writes the store's
 * member map without the application's configuration guard. The clock
 * reading is a parameter.
 */
module NormalizeMembers {
  import opened Values
  import opened Firestore

  /** `cleanUrl`: a string that is not a `blob:` URL, or `''`. */
  function CleanUrl(v: Option<Value>): (s: string)
    ensures v.Some? && v.value.Str? && !StartsWith(v.value.s, "blob:") ==> s == v.value.s
    ensures !(v.Some? && v.value.Str?) ==> s == ""
    ensures v.Some? && v.value.Str? && StartsWith(v.value.s, "blob:") ==> s == ""
    ensures !StartsWith(s, "blob:")
  {
    match v
    case Some(Str(u)) => if StartsWith(u, "blob:") then "" else u
    case _ => ""
  }

  /** `str(v, fallback)`: `null` and `undefined` give the fallback, anything else `String(v)`. */
  function StrOr(v: Option<Value>, fallback: string): (s: string)
    ensures v.None? || v == Some(Null) ==> s == fallback
    ensures v.Some? && v.value.Str? ==> s == v.value.s
  {
    if v.None? || v.value == Null then fallback else Display(v.value)
  }

  /** The keys of a normalised member document. */
  const NormalizedKeys: set<string> := {
    "id", "name", "nickname", "tagline", "birthdate", "hometown", "hobbies", "thoughts", "career",
    "imageNo1", "imageNo2", "createdAt", "updatedAt"}

  /**
   * The value `normalized` holds under `key`. Every value is a defined
   * string, so the loop that deletes `undefined` keys deletes none.
   */
  function NormalizedText(docId: string, data: Doc, nowIso: string, key: string): string
  {
    if key == "id" then StrOr(Some(OrElse(Field(data, "id"), Str(docId))), "")
    else if key == "birthdate" then StrOr(Coalesce(Field(data, "birthdate"), Field(data, "birthDate")), "")
    else if key == "imageNo1" || key == "imageNo2" then CleanUrl(Field(data, key))
    else if key == "createdAt" then StrOr(Some(OrElse(Field(data, "createdAt"), Str(""))), "")
    else if key == "updatedAt" then nowIso
    else StrOr(Field(data, key), "")
  }

  /** The document written by `setDoc(..., { merge: true })`. */
  function NormalizedMember(docId: string, data: Doc, nowIso: string): Doc
  {
    map k | k in NormalizedKeys :: Str(NormalizedText(docId, data, nowIso, k))
  }

  /** Every key of the schema is written, and only those. */
  lemma NormalizedKeysExactly(docId: string, data: Doc, nowIso: string)
    ensures NormalizedMember(docId, data, nowIso).Keys == NormalizedKeys
  {
  }

  /**
   * The id falls back to the document id; `createdAt` is kept when truthy;
   * `updatedAt` is always the new time.
   */
  lemma NormalizedIdAndTimes(docId: string, data: Doc, nowIso: string)
    ensures var d := NormalizedMember(docId, data, nowIso);
      && d["id"] == Str(if TruthyField(Field(data, "id")) then Display(data["id"]) else docId)
      && d["createdAt"] == Str(if TruthyField(Field(data, "createdAt")) then Display(data["createdAt"]) else "")
      && d["updatedAt"] == Str(nowIso)
  {
  }

  /**
   * `birthdate` wins over `birthDate` whenever it is present and not
   * `null` — even when empty — and both missing give `''`.
   */
  lemma NormalizedBirthdate(docId: string, data: Doc, nowIso: string)
    ensures var d := NormalizedMember(docId, data, nowIso);
      && ("birthdate" in data && data["birthdate"] != Null ==> d["birthdate"] == Str(Display(data["birthdate"])))
      && (Field(data, "birthdate") == Some(Str("")) ==> d["birthdate"] == Str(""))
      && (Field(data, "birthdate") in {None, Some(Null)} && "birthDate" in data && data["birthDate"] != Null
          ==> d["birthdate"] == Str(Display(data["birthDate"])))
      && (Field(data, "birthdate") in {None, Some(Null)} && Field(data, "birthDate") in {None, Some(Null)}
          ==> d["birthdate"] == Str(""))
  {
  }

  /** The plain texts are kept (as `String(v)`) or become `''`; images are never `blob:` URLs. */
  lemma NormalizedTexts(docId: string, data: Doc, nowIso: string)
    ensures var d := NormalizedMember(docId, data, nowIso);
      && (forall k :: k in {"name", "nickname", "tagline", "hometown", "hobbies", "thoughts", "career"} ==>
          d[k] == Str(if k in data && data[k] != Null then Display(data[k]) else ""))
      && !StartsWith(d["imageNo1"].s, "blob:") && !StartsWith(d["imageNo2"].s, "blob:")
      && (Field(data, "imageNo1") == Some(Str("")) ==> d["imageNo1"] == Str(""))
  {
  }

  /** One document after its `setDoc` with merge. */
  function Normalized(docId: string, data: Doc, nowIso: string): Doc
  {
    Merge(data, NormalizedMember(docId, data, nowIso))
  }

  /** A normalised document is already normal: running the script twice with the same clock is running it once. */
  lemma NormalizeIdempotent(docId: string, data: Doc, nowIso: string)
    ensures Normalized(docId, Normalized(docId, data, nowIso), nowIso) == Normalized(docId, data, nowIso)
  {
    NormalizedRecordFixed(docId, data, nowIso);
    MergeTwice(data, NormalizedMember(docId, data, nowIso));
  }

  /** Normalising the merged document writes the same record again. */
  lemma NormalizedRecordFixed(docId: string, data: Doc, nowIso: string)
    ensures NormalizedMember(docId, Normalized(docId, data, nowIso), nowIso) == NormalizedMember(docId, data, nowIso)
  {
    var n := NormalizedMember(docId, data, nowIso);
    var again := NormalizedMember(docId, Normalized(docId, data, nowIso), nowIso);
    assert again.Keys == n.Keys;
    forall k | k in n ensures again[k] == n[k] {
      NormalizedTextFixed(docId, data, nowIso, k);
    }
  }

  /** One key of `NormalizeIdempotent`. */
  lemma NormalizedTextFixed(docId: string, data: Doc, nowIso: string, k: string)
    requires k in NormalizedKeys
    ensures NormalizedText(docId, Normalized(docId, data, nowIso), nowIso, k)
      == NormalizedText(docId, data, nowIso, k)
  {
    var once := Normalized(docId, data, nowIso);
    var t := NormalizedText(docId, data, nowIso, k);
    assert Field(once, k) == Some(Str(t));
    TextOfWritten(docId, data, once, nowIso, k);
  }

  /** A document holding the normalised text under `k` normalises to that text again. */
  lemma TextOfWritten(docId: string, data: Doc, once: Doc, nowIso: string, k: string)
    requires Field(once, k) == Some(Str(NormalizedText(docId, data, nowIso, k)))
    ensures NormalizedText(docId, once, nowIso, k) == NormalizedText(docId, data, nowIso, k)
  {
    if k == "id" && TruthyField(Field(data, "id")) {
      TruthyDisplayNonEmpty(data["id"]);
    }
  }

  /** The record written for a document of the snapshot. */
  function NormalizeWith(nowIso: string): (string, Doc) -> Doc
  {
    (id, data) => NormalizedMember(id, data, nowIso)
  }

  /**
   * `run`: for each document of the snapshot of `members`, in snapshot
   * order, merge its normalised record into it; `count` is the number of
   * documents written.
   */
  method Run(store: Store, snap: seq<(string, Doc)>, nowIso: string) returns (count: nat)
    requires IsSnapshot(snap, store.members)
    modifies store`members
    ensures count == |snap|
    ensures store.members == UpsertAll(old(store.members), Records(snap, NormalizeWith(nowIso)))
  {
    var written;
    written, count := UpsertEach(store.members, snap, NormalizeWith(nowIso));
    store.members := written;
  }

  /**
   * What the run leaves: the same documents, each one the merge of what it
   * held with its normalised record.
   */
  lemma RunNormalizesEach(members: map<string, Doc>, snap: seq<(string, Doc)>, nowIso: string)
    requires IsSnapshot(snap, members)
    ensures var after := UpsertAll(members, Records(snap, NormalizeWith(nowIso)));
      && after.Keys == members.Keys
      && forall id :: id in members ==> after[id] == Normalized(id, members[id], nowIso)
  {
    UpsertSnapshotInPlace(members, snap, NormalizeWith(nowIso));
  }

  /** The snapshot order does not matter: two snapshots of the same collection leave the same documents. */
  lemma RunOrderIrrelevant(members: map<string, Doc>, snap1: seq<(string, Doc)>, snap2: seq<(string, Doc)>, nowIso: string)
    requires IsSnapshot(snap1, members) && IsSnapshot(snap2, members)
    ensures UpsertAll(members, Records(snap1, NormalizeWith(nowIso))) == UpsertAll(members, Records(snap2, NormalizeWith(nowIso)))
  {
    UpsertSnapshotInPlace(members, snap1, NormalizeWith(nowIso));
    UpsertSnapshotInPlace(members, snap2, NormalizeWith(nowIso));
  }
}
