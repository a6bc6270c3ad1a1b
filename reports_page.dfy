/**
 * The weekly-report page of app/reports/page.tsx: change detection against
 * the last loaded or saved list, the placeholder teaser shown while a
 * headline is generated, the sequential teaser pass that follows a save,
 * clearing after the week is archived, the delete-index rule, and the
 * guards of the question-answering search.
 *
 * The teaser service is a function from the report to `Some(teaser)` or
 * `None` (the request threw). The pass that the page starts without waiting
 * for it is modelled as running to completion right after the save.
 */
module ReportsPage {
  import opened Values
  import opened Data
  import opened Firestore
  import opened Edit
  import opened Gemini

  /** The teaser shown while a headline is being generated. */
  const Placeholder := "魅力的な見出しを作成中..."

  // ---------------------------------------------------------------------
  // Change detection and placeholder tagging

  /** `list.find((r) => r.id === id)`, as the index of the first report with that id. */
  function FindById(rs: seq<Report>, id: string): (k: Option<nat>)
    ensures k.Some? ==> k.value < |rs| && rs[k.value].id == id && forall j :: 0 <= j < k.value ==> rs[j].id != id
    ensures k.None? ==> forall j :: 0 <= j < |rs| ==> rs[j].id != id
    decreases |rs|
  {
    if rs == [] then None
    else if rs[0].id == id then Some(0)
    else
      match FindById(rs[1..], id)
      case None => None
      case Some(k) => Some(k + 1)
  }

  /** `currentTrial || progress || result`: some report text is non-empty. */
  predicate HasContent(r: Report)
  {
    r.currentTrial != "" || r.progress != "" || r.result != ""
  }

  /** One of the three report texts differs from the original. */
  predicate ContentChanged(original: Report, current: Report)
  {
    original.currentTrial != current.currentTrial || original.progress != current.progress
    || original.result != current.result
  }

  /** New (no original with its id) or changed, and not empty: the report needs a new teaser. */
  predicate NeedsTeaser(r: Report, original: seq<Report>)
  {
    && (match FindById(original, r.id)
        case None => true
        case Some(k) => ContentChanged(original[k], r))
    && HasContent(r)
  }

  /** `reportsWithTempTeasers`. */
  function TagPlaceholders(rs: seq<Report>, original: seq<Report>): (tagged: seq<Report>)
    ensures |tagged| == |rs|
  {
    seq(|rs|, i requires 0 <= i < |rs| =>
      if NeedsTeaser(rs[i], original) then rs[i].(teaser := Some(Placeholder)) else rs[i])
  }

  /** `reportsToSave`: the teaser is dropped from every report showing the placeholder. */
  function StripPlaceholders(rs: seq<Report>): (stripped: seq<Report>)
    ensures |stripped| == |rs|
  {
    seq(|rs|, i requires 0 <= i < |rs| =>
      if rs[i].teaser == Some(Placeholder) then rs[i].(teaser := None) else rs[i])
  }

  /**
   * Tagging puts the placeholder on exactly the reports that need a teaser
   * and changes nothing else; stripping then removes every placeholder and
   * leaves the list otherwise as it was, so the records written are those
   * of the list the user edited.
   */
  lemma TagThenStrip(rs: seq<Report>, original: seq<Report>)
    ensures forall i :: 0 <= i < |rs| && NeedsTeaser(rs[i], original) ==>
      TagPlaceholders(rs, original)[i] == rs[i].(teaser := Some(Placeholder))
    ensures forall i :: 0 <= i < |rs| && !NeedsTeaser(rs[i], original) ==> TagPlaceholders(rs, original)[i] == rs[i]
    ensures forall i :: 0 <= i < |rs| ==>
      StripPlaceholders(TagPlaceholders(rs, original))[i].teaser != Some(Placeholder)
    ensures forall i :: 0 <= i < |rs| ==>
      StripPlaceholders(TagPlaceholders(rs, original))[i].(teaser := rs[i].teaser) == rs[i]
    ensures ReportEntries(StripPlaceholders(TagPlaceholders(rs, original))) == ReportEntries(rs)
  {
    var stripped := StripPlaceholders(TagPlaceholders(rs, original));
    forall i | 0 <= i < |rs|
      ensures ReportRecord(stripped[i]) == ReportRecord(rs[i])
    {
      ReportRecordIgnoresTeaser(rs[i], stripped[i].teaser);
      assert stripped[i] == rs[i].(teaser := stripped[i].teaser);
    }
  }

  /** Tagging keeps the id and the three texts, so it does not change which reports need a teaser. */
  lemma TaggedNeedsTeaser(rs: seq<Report>, original: seq<Report>, i: nat)
    requires i < |rs|
    ensures TagPlaceholders(rs, original)[i].id == rs[i].id
    ensures NeedsTeaser(TagPlaceholders(rs, original)[i], original) == NeedsTeaser(rs[i], original)
  {
  }

  /** `changedReports` of the teaser pass, in list order. */
  function ChangedReports(current: seq<Report>, original: seq<Report>): seq<Report>
    decreases |current|
  {
    if current == [] then []
    else
      var last := current[|current| - 1];
      ChangedReports(current[..|current| - 1], original) + (if NeedsTeaser(last, original) then [last] else [])
  }

  /** The pass selects exactly the reports of the list that need a teaser. */
  lemma {:induction false} ChangedReportsExactly(current: seq<Report>, original: seq<Report>)
    ensures forall r :: r in ChangedReports(current, original) <==> r in current && NeedsTeaser(r, original)
    decreases |current|
  {
    if current != [] {
      ChangedReportsExactly(current[..|current| - 1], original);
      assert current == current[..|current| - 1] + [current[|current| - 1]];
    }
  }

  // ---------------------------------------------------------------------
  // The teaser pass

  /** `(currentTrial || progress || result || '')`. */
  function FirstFilled(r: Report): string
  {
    if r.currentTrial != "" then r.currentTrial
    else if r.progress != "" then r.progress
    else r.result
  }

  /** The fallback teaser: the first 30 characters of the first non-empty text, then `...`. */
  function FallbackTeaser(r: Report): (t: string)
    ensures 3 <= |t| <= 33 && t[|t| - 3..] == "..."
    ensures StartsWith(FirstFilled(r), t[..|t| - 3])
    ensures |FirstFilled(r)| >= 30 ==> |t| == 33
    ensures HasContent(r) ==> |t| > 3
  {
    var head := Prefix(FirstFilled(r), 30);
    var t := head + "...";
    assert t[..|t| - 3] == head;
    t
  }

  /** The report with the teaser the pass settles on: the generated one, or the fallback when generation threw. */
  function Resolved(c: Report, generated: Option<string>): Report
  {
    c.(teaser := Some(if generated.Some? then generated.value else FallbackTeaser(c)))
  }

  /** `list.map((r) => r.id === id ? x : r)`. */
  function ReplaceById(rs: seq<Report>, id: string, x: Report): (r: seq<Report>)
    ensures |r| == |rs|
  {
    seq(|rs|, i requires 0 <= i < |rs| => if rs[i].id == id then x else rs[i])
  }

  /** The page's list after the pass has replaced each selected report in turn. */
  function ApplyResolved(rs: seq<Report>, cs: seq<Report>, generate: Report -> Option<string>): (r: seq<Report>)
    ensures |r| == |rs|
    decreases |cs|
  {
    if cs == [] then rs
    else
      var c := cs[|cs| - 1];
      ReplaceById(ApplyResolved(rs, cs[..|cs| - 1], generate), c.id, Resolved(c, generate(c)))
  }

  /** The last selected report with that id. */
  function LastWithId(cs: seq<Report>, id: string): (r: Option<Report>)
    ensures r.Some? ==> r.value in cs && r.value.id == id
    ensures r.None? ==> forall j :: 0 <= j < |cs| ==> cs[j].id != id
    decreases |cs|
  {
    if cs == [] then None
    else if cs[|cs| - 1].id == id then Some(cs[|cs| - 1])
    else LastWithId(cs[..|cs| - 1], id)
  }

  /** After the pass, each report is resolved from the last selected report with its id, or left as it was. */
  lemma {:induction false} ApplyResolvedAt(rs: seq<Report>, cs: seq<Report>, generate: Report -> Option<string>, i: nat)
    requires i < |rs|
    ensures ApplyResolved(rs, cs, generate)[i] ==
      match LastWithId(cs, rs[i].id)
      case Some(c) => Resolved(c, generate(c))
      case None => rs[i]
    decreases |cs|
  {
    if cs != [] {
      ApplyResolvedAt(rs, cs[..|cs| - 1], generate, i);
    }
  }

  /** No two reports share an id. */
  predicate UniqueReportIds(rs: seq<Report>)
  {
    forall i, j :: 0 <= i < j < |rs| ==> rs[i].id != rs[j].id
  }

  /** The last report appended is the last one with its id. */
  lemma LastWithIdAppended(cs: seq<Report>, c: Report)
    ensures LastWithId(cs + [c], c.id) == Some(c)
  {
  }

  /** Appending a report with another id does not change which report is last with `id`. */
  lemma LastWithIdAppendedOther(cs: seq<Report>, c: Report, id: string)
    requires c.id != id
    ensures LastWithId(cs + [c], id) == LastWithId(cs, id)
  {
    assert (cs + [c])[..|cs|] == cs;
  }

  /** With distinct ids, a report was selected by the pass exactly when it needs a teaser. */
  lemma {:induction false} LastChangedWithId(current: seq<Report>, original: seq<Report>, i: nat)
    requires UniqueReportIds(current) && i < |current|
    ensures LastWithId(ChangedReports(current, original), current[i].id)
      == if NeedsTeaser(current[i], original) then Some(current[i]) else None
    decreases |current|
  {
    var n := |current|;
    var init := current[..n - 1];
    var last := current[n - 1];
    var cs := ChangedReports(init, original);
    assert ChangedReports(current, original) == cs + (if NeedsTeaser(last, original) then [last] else []);
    if i == n - 1 {
      LastSelectedOnce(init, original, last);
      if NeedsTeaser(last, original) {
        LastWithIdAppended(cs, last);
      } else {
        assert cs + [] == cs;
      }
    } else {
      assert init[i] == current[i];
      LastChangedWithId(init, original, i);
      if NeedsTeaser(last, original) {
        LastWithIdAppendedOther(cs, last, current[i].id);
      } else {
        assert cs + [] == cs;
      }
    }
  }

  /** A report whose id no earlier report has is not among the earlier selections. */
  lemma LastSelectedOnce(init: seq<Report>, original: seq<Report>, last: Report)
    requires forall k :: 0 <= k < |init| ==> init[k].id != last.id
    ensures LastWithId(ChangedReports(init, original), last.id) == None
  {
    ChangedReportsExactly(init, original);
  }

  /**
   * With distinct ids, the pass that follows a save leaves every report that
   * needed a teaser with the generated teaser or the fallback, and every
   * other report as it was: no placeholder the save put up is left behind.
   */
  lemma TeaserPassResolves(rs: seq<Report>, original: seq<Report>, generate: Report -> Option<string>, i: nat)
    requires UniqueReportIds(rs) && i < |rs|
    ensures var tagged := TagPlaceholders(rs, original);
      ApplyResolved(tagged, ChangedReports(tagged, original), generate)[i]
        == if NeedsTeaser(rs[i], original) then Resolved(tagged[i], generate(tagged[i])) else rs[i]
    ensures var tagged := TagPlaceholders(rs, original);
      ApplyResolved(StripPlaceholders(tagged), ChangedReports(tagged, original), generate)[i]
        == if NeedsTeaser(rs[i], original) then Resolved(tagged[i], generate(tagged[i])) else StripPlaceholders(tagged)[i]
  {
    var tagged := TagPlaceholders(rs, original);
    var cs := ChangedReports(tagged, original);
    forall a, b | 0 <= a < b < |tagged| ensures tagged[a].id != tagged[b].id {
      TaggedNeedsTeaser(rs, original, a);
      TaggedNeedsTeaser(rs, original, b);
    }
    TaggedNeedsTeaser(rs, original, i);
    LastChangedWithId(tagged, original, i);
    ApplyResolvedAt(tagged, cs, generate, i);
    ApplyResolvedAt(StripPlaceholders(tagged), cs, generate, i);
  }

  /** The store after the pass: each step writes the snapshot with one report replaced. */
  function StoreAfterPass(store: map<string, Doc>, current: seq<Report>, cs: seq<Report>,
                          generate: Report -> Option<string>): map<string, Doc>
    decreases |cs|
  {
    if cs == [] then store
    else
      var c := cs[|cs| - 1];
      Sync(StoreAfterPass(store, current, cs[..|cs| - 1], generate),
        ReportEntries(ReplaceById(current, c.id, Resolved(c, generate(c)))))
  }

  lemma UniqueEntries(rs: seq<Report>)
    requires UniqueReportIds(rs)
    ensures DistinctIds(ReportEntries(rs))
  {
  }

  /** Replacing a report by itself with another teaser writes the same records. */
  lemma ResolvedSameEntries(current: seq<Report>, c: Report, generated: Option<string>)
    requires UniqueReportIds(current) && c in current
    ensures ReportEntries(ReplaceById(current, c.id, Resolved(c, generated))) == ReportEntries(current)
  {
    var replaced := ReplaceById(current, c.id, Resolved(c, generated));
    var k :| 0 <= k < |current| && current[k] == c;
    forall i | 0 <= i < |current|
      ensures ReportRecord(replaced[i]) == ReportRecord(current[i])
    {
      if current[i].id == c.id {
        assert i == k;
        ReportRecordIgnoresTeaser(c, Resolved(c, generated).teaser);
      }
    }
  }

  /**
   * Teasers are never persisted: with distinct ids, the pass rewrites the
   * store with what it already holds.
   */
  lemma {:induction false} TeaserPassKeepsStore(store: map<string, Doc>, current: seq<Report>, cs: seq<Report>,
                                                generate: Report -> Option<string>)
    requires UniqueReportIds(current) && forall c :: c in cs ==> c in current
    ensures StoreAfterPass(Sync(store, ReportEntries(current)), current, cs, generate) == Sync(store, ReportEntries(current))
    decreases |cs|
  {
    if cs != [] {
      var c := cs[|cs| - 1];
      TeaserPassKeepsStore(store, current, cs[..|cs| - 1], generate);
      ResolvedSameEntries(current, c, generate(c));
      UniqueEntries(current);
      SyncIdempotent(store, ReportEntries(current));
    }
  }

  /** After a save and its teaser pass, with distinct ids, the store holds exactly the edited list. */
  lemma SaveThenPassStore(store: map<string, Doc>, rs: seq<Report>, original: seq<Report>, generate: Report -> Option<string>)
    requires UniqueReportIds(rs)
    ensures var tagged := TagPlaceholders(rs, original);
      StoreAfterPass(Sync(store, ReportEntries(StripPlaceholders(tagged))), tagged, ChangedReports(tagged, original), generate)
        == Sync(store, ReportEntries(rs))
  {
    var tagged := TagPlaceholders(rs, original);
    TagThenStrip(rs, original);
    forall a, b | 0 <= a < b < |tagged| ensures tagged[a].id != tagged[b].id {
      TaggedNeedsTeaser(rs, original, a);
      TaggedNeedsTeaser(rs, original, b);
    }
    forall i | 0 <= i < |rs| ensures ReportRecord(tagged[i]) == ReportRecord(rs[i]) {
      ReportRecordIgnoresTeaser(rs[i], tagged[i].teaser);
      assert tagged[i] == rs[i].(teaser := tagged[i].teaser);
    }
    assert ReportEntries(tagged) == ReportEntries(rs);
    ChangedReportsExactly(tagged, original);
    TeaserPassKeepsStore(store, tagged, ChangedReports(tagged, original), generate);
  }

  // ---------------------------------------------------------------------
  // Archiving, adding, updating and deleting

  /** `clearedReports`: the week's texts and teaser emptied, id and nickname kept. */
  function ClearReports(rs: seq<Report>): (cleared: seq<Report>)
    ensures |cleared| == |rs|
  {
    seq(|rs|, i requires 0 <= i < |rs| => rs[i].(currentTrial := "", progress := "", result := "", teaser := Some("")))
  }

  /** Clearing keeps who each report belongs to, empties the rest, and leaves nothing for the next save to tag. */
  lemma ClearedReports(rs: seq<Report>, original: seq<Report>)
    ensures forall i :: 0 <= i < |rs| ==>
      && ClearReports(rs)[i].id == rs[i].id && ClearReports(rs)[i].nickname == rs[i].nickname
      && ClearReports(rs)[i].currentTrial == "" && ClearReports(rs)[i].progress == ""
      && ClearReports(rs)[i].result == "" && ClearReports(rs)[i].teaser == Some("")
    ensures forall i :: 0 <= i < |rs| ==> !NeedsTeaser(ClearReports(rs)[i], original)
    ensures TagPlaceholders(ClearReports(rs), original) == ClearReports(rs)
  {
  }

  /** A report's fields, as `keyof Report`. */
  datatype ReportField = Id | Nickname | CurrentTrial | Progress | ResultText | Teaser

  function ReportFieldOf(r: Report, f: ReportField): Option<string>
  {
    match f
    case Id => Some(r.id)
    case Nickname => Some(r.nickname)
    case CurrentTrial => Some(r.currentTrial)
    case Progress => Some(r.progress)
    case ResultText => Some(r.result)
    case Teaser => r.teaser
  }

  /** `{ ...r, [field]: value }`: that field becomes `value`, every other field is kept. */
  function WithReportField(r: Report, f: ReportField, v: string): (x: Report)
    ensures ReportFieldOf(x, f) == Some(v)
    ensures forall g :: g != f ==> ReportFieldOf(x, g) == ReportFieldOf(r, g)
  {
    match f
    case Id => r.(id := v)
    case Nickname => r.(nickname := v)
    case CurrentTrial => r.(currentTrial := v)
    case Progress => r.(progress := v)
    case ResultText => r.(result := v)
    case Teaser => r.(teaser := Some(v))
  }

  /** `prev.map((r) => (r.id === id ? { ...r, [field]: value } : r))`. */
  function UpdateReports(rs: seq<Report>, id: string, f: ReportField, v: string): (r: seq<Report>)
    ensures |r| == |rs|
  {
    seq(|rs|, i requires 0 <= i < |rs| => if rs[i].id == id then WithReportField(rs[i], f, v) else rs[i])
  }

  /** An update touches only the reports with that id, and only in that field. */
  lemma UpdateReportsOnly(rs: seq<Report>, id: string, f: ReportField, v: string)
    ensures forall i :: 0 <= i < |rs| && rs[i].id != id ==> UpdateReports(rs, id, f, v)[i] == rs[i]
    ensures forall i, g :: 0 <= i < |rs| && rs[i].id == id ==>
      ReportFieldOf(UpdateReports(rs, id, f, v)[i], g) == if g == f then Some(v) else ReportFieldOf(rs[i], g)
    ensures f != Id ==> forall i :: 0 <= i < |rs| ==> UpdateReports(rs, id, f, v)[i].id == rs[i].id
  {
    var r := UpdateReports(rs, id, f, v);
    if f != Id {
      forall i | 0 <= i < |rs| ensures r[i].id == rs[i].id {
        assert ReportFieldOf(r[i], Id) == ReportFieldOf(rs[i], Id);
      }
    }
  }

  /** The voice-input update: the reports with that id take the summary's three texts. */
  function WithSummary(rs: seq<Report>, id: string, s: Summary): (r: seq<Report>)
    ensures |r| == |rs|
  {
    seq(|rs|, i requires 0 <= i < |rs| =>
      if rs[i].id == id then rs[i].(currentTrial := s.currentTrial, progress := s.progress, result := s.result) else rs[i])
  }

  /** Applying a summary is editing the three texts one after the other. */
  lemma WithSummaryIsThreeUpdates(rs: seq<Report>, id: string, s: Summary)
    ensures WithSummary(rs, id, s)
      == UpdateReports(UpdateReports(UpdateReports(rs, id, CurrentTrial, s.currentTrial), id, Progress, s.progress),
                       id, ResultText, s.result)
  {
    var a := UpdateReports(rs, id, CurrentTrial, s.currentTrial);
    var b := UpdateReports(a, id, Progress, s.progress);
    var c := UpdateReports(b, id, ResultText, s.result);
    forall i | 0 <= i < |rs| ensures WithSummary(rs, id, s)[i] == c[i] {
      assert a[i].id == rs[i].id && b[i].id == rs[i].id;
    }
  }

  /** A summary the model produced has three non-empty texts, so the report it fills has content. */
  lemma SummaryGivesContent(apiKey: string, reply: Option<string>, parse: string -> Option<Doc>, r: Report)
    requires SummarizeReport(apiKey, reply, parse).Ok?
    ensures var s := SummarizeReport(apiKey, reply, parse).value;
      s.currentTrial != "" && s.progress != "" && s.result != ""
      && HasContent(r.(currentTrial := s.currentTrial, progress := s.progress, result := s.result))
  {
    var parsed := parse(JsonSpan(reply.value).value).value;
    SummaryDefaults(parsed, "currentTrial");
    SummaryDefaults(parsed, "progress");
    SummaryDefaults(parsed, "result");
  }

  /** `prev.filter((r) => r.id !== id)`. */
  function WithoutReport(rs: seq<Report>, id: string): seq<Report>
  {
    Filter(rs, (r: Report) => r.id != id)
  }

  /** The filter drops exactly the reports with that id. */
  lemma WithoutReportExactly(rs: seq<Report>, id: string)
    ensures forall r :: r in WithoutReport(rs, id) <==> r in rs && r.id != id
    ensures (forall r :: r in rs ==> r.id != id) ==> WithoutReport(rs, id) == rs
  {
    FilterExactly(rs, (r: Report) => r.id != id);
  }

  /** With distinct ids, the filter drops at most one report. */
  lemma {:induction false} WithoutReportDropsOne(rs: seq<Report>, id: string)
    requires UniqueReportIds(rs)
    ensures |WithoutReport(rs, id)| >= |rs| - 1
    decreases |rs|
  {
    if rs != [] {
      var init := rs[..|rs| - 1];
      assert rs == init + [rs[|rs| - 1]];
      FilterAppend(init, rs[|rs| - 1], (r: Report) => r.id != id);
      if rs[|rs| - 1].id == id {
        forall r | r in init ensures r.id != id {
          var k :| 0 <= k < |init| && init[k] == r;
          assert rs[k] == r;
        }
        WithoutReportExactly(init, id);
      } else {
        WithoutReportDropsOne(init, id);
      }
    }
  }

  /** The index shown after a confirmed delete. */
  function IndexAfterDelete(remaining: nat, deletedIndex: int): int
  {
    if remaining == 0 then 0
    else if deletedIndex == 0 then 0
    else deletedIndex - 1
  }

  /** With distinct ids and a valid index before, the index after a delete is valid (or 0 for an empty list). */
  lemma IndexAfterDeleteInRange(rs: seq<Report>, id: string, deletedIndex: int)
    requires UniqueReportIds(rs) && 0 <= deletedIndex < |rs|
    ensures var k := IndexAfterDelete(|WithoutReport(rs, id)|, deletedIndex);
      (|WithoutReport(rs, id)| == 0 && k == 0) || 0 <= k < |WithoutReport(rs, id)|
  {
    WithoutReportDropsOne(rs, id);
  }

  /** The report `handleAddReport` appends. */
  function NewReport(now: nat): Report
  {
    Report("report-" + NatToString(now), "", "", "", "", None)
  }

  // ---------------------------------------------------------------------
  // Question answering over archived reports

  /** What the search button leads to. */
  datatype RagOutcome =
    | EmptyQuestion
    | NoEmbeddingData
    | Answered(hits: seq<Scored>, answer: string)
    | SearchFailed

  /** `searchSimilarTexts` keeps this many passages. */
  const RagTopK := 5

  /**
   * `handleRAGSearch`: a blank question stops first; then the archived
   * embeddings are loaded (`None`: loading threw) and an empty set stops
   * before any search; then the five best passages are found and answered.
   */
  function RagSearch(question: string, embeddings: Option<seq<EmbeddingResult>>, apiKey: string,
                     queryReply: Option<seq<int>>, answerReply: Option<string>, score: Similarity -> int): (r: RagOutcome)
    ensures Trim(question) == "" <==> r == EmptyQuestion
    ensures r == NoEmbeddingData <==> Trim(question) != "" && embeddings == Some([])
    ensures r.Answered? ==> embeddings.Some? && |embeddings.value| > 0 && answerReply == Some(r.answer)
    ensures r.Answered? ==>
      var found := SearchSimilarTexts(GenerateEmbedding(apiKey, queryReply), embeddings.value, RagTopK, score);
      found.Ok? && r.hits == found.value
    ensures Trim(question) != "" && embeddings.Some? && |embeddings.value| > 0 ==>
      var found := SearchSimilarTexts(GenerateEmbedding(apiKey, queryReply), embeddings.value, RagTopK, score);
      var answer := AnswerWithRag(apiKey, answerReply);
      found.Ok? && answer.Ok? ==> r == Answered(found.value, answer.value)
  {
    if Trim(question) == "" then EmptyQuestion
    else if embeddings.None? then SearchFailed
    else if |embeddings.value| == 0 then NoEmbeddingData
    else
      match SearchSimilarTexts(GenerateEmbedding(apiKey, queryReply), embeddings.value, RagTopK, score)
      case Err(_) => SearchFailed
      case Ok(hits) =>
        match AnswerWithRag(apiKey, answerReply)
        case Err(_) => SearchFailed
        case Ok(answer) => Answered(hits, answer)
  }

  /** An answer is built from the best-scoring passages, at most five of them, best first. */
  lemma RagAnswerRanked(question: string, embeddings: Option<seq<EmbeddingResult>>, apiKey: string,
                        queryReply: Option<seq<int>>, answerReply: Option<string>, score: Similarity -> int)
    requires RagSearch(question, embeddings, apiKey, queryReply, answerReply, score).Answered?
    ensures var r := RagSearch(question, embeddings, apiKey, queryReply, answerReply, score);
      var all := ScoreAll(queryReply.value, embeddings.value, score);
      && |r.hits| == (if |embeddings.value| < RagTopK then |embeddings.value| else RagTopK)
      && SortedDesc(r.hits)
      && multiset(r.hits) <= multiset(all)
      && (forall h: Scored, e: Scored :: h in r.hits && e in multiset(all) - multiset(r.hits) ==> e.score <= h.score)
  {
    SearchRanked(GenerateEmbedding(apiKey, queryReply), embeddings.value, RagTopK, score);
  }

  // ---------------------------------------------------------------------
  // The page

  class ReportPage {
    var reports: seq<Report>
    /** The list as last loaded or saved, for change detection. */
    var originalReports: seq<Report>
    var currentReportIndex: int
    var selectedReportId: Option<string>
    var isModalEditing: bool
    var ragAnswer: string
    const store: Store
    const edit: EditContext

    constructor (store: Store, edit: EditContext)
      ensures this.store == store && this.edit == edit
      ensures reports == [] && originalReports == [] && currentReportIndex == 0
      ensures selectedReportId == None && !isModalEditing && ragAnswer == ""
    {
      this.store := store;
      this.edit := edit;
      reports := [];
      originalReports := [];
      currentReportIndex := 0;
      selectedReportId := None;
      isModalEditing := false;
      ragAnswer := "";
    }

    /** `loadReports`: the page and its change-detection copy both show what `getReports` returns. */
    method LoadReports()
      modifies this
      ensures originalReports == reports
      ensures !store.configured ==> reports == []
      ensures store.configured ==> ReportIds(reports) == store.reports.Keys && |reports| == |store.reports|
      ensures forall i :: 0 <= i < |reports| ==>
        reports[i].id in store.reports && reports[i] == ReadReport(reports[i].id, store.reports[reports[i].id])
      ensures currentReportIndex == old(currentReportIndex) && selectedReportId == old(selectedReportId)
      ensures isModalEditing == old(isModalEditing) && ragAnswer == old(ragAnswer)
    {
      reports := store.GetReports();
      originalReports := reports;
    }

    /**
     * `generateTeasersInBackground(current, original)`: for each report that
     * needs a teaser, in order, write the snapshot with that report's
     * generated teaser (or, when generation or that write throws, its
     * fallback) and show it on the page. A failed fallback write ends the pass.
     */
    method GenerateTeasers(current: seq<Report>, original: seq<Report>, generate: Report -> Option<string>)
      modifies this`reports, this`originalReports, store`reports
      ensures var cs := ChangedReports(current, original);
        store.configured ==>
          && reports == ApplyResolved(old(reports), cs, generate)
          && originalReports == ApplyResolved(old(originalReports), cs, generate)
          && store.reports == StoreAfterPass(old(store.reports), current, cs, generate)
      ensures !store.configured ==>
        reports == old(reports) && originalReports == old(originalReports) && store.reports == old(store.reports)
    {
      var cs := ChangedReports(current, original);
      if |cs| == 0 {
        return;
      }
      var i := 0;
      while i < |cs|
        invariant 0 <= i <= |cs|
        invariant store.configured ==>
          && reports == ApplyResolved(old(reports), cs[..i], generate)
          && originalReports == ApplyResolved(old(originalReports), cs[..i], generate)
          && store.reports == StoreAfterPass(old(store.reports), current, cs[..i], generate)
        invariant !store.configured ==>
          reports == old(reports) && originalReports == old(originalReports) && store.reports == old(store.reports)
      {
        var ok := ResolveOne(current, cs[i], generate(cs[i]));
        if !ok {
          return;
        }
        assert cs[..i + 1][..i] == cs[..i];
        i := i + 1;
      }
      assert cs[..|cs|] == cs;
    }

    /**
     * One step of the teaser pass: write the snapshot with the report's
     * generated teaser and show it; when generation or that write threw,
     * do the same with the fallback teaser. `false` when the fallback write
     * threw as well.
     */
    method ResolveOne(current: seq<Report>, c: Report, generated: Option<string>) returns (ok: bool)
      modifies this`reports, this`originalReports, store`reports
      ensures ok <==> store.configured
      ensures ok ==>
        && reports == ReplaceById(old(reports), c.id, Resolved(c, generated))
        && originalReports == ReplaceById(old(originalReports), c.id, Resolved(c, generated))
        && store.reports == Sync(old(store.reports), ReportEntries(ReplaceById(current, c.id, Resolved(c, generated))))
      ensures !ok ==>
        reports == old(reports) && originalReports == old(originalReports) && store.reports == old(store.reports)
    {
      if generated.Some? {
        var updated := c.(teaser := Some(generated.value));
        var r := store.SaveReports(ReplaceById(current, c.id, updated));
        if r.Done? {
          reports := ReplaceById(reports, c.id, updated);
          originalReports := ReplaceById(originalReports, c.id, updated);
          return true;
        }
      }
      var fallback := c.(teaser := Some(FallbackTeaser(c)));
      var r := store.SaveReports(ReplaceById(current, c.id, fallback));
      if r.Failed? {
        return false;
      }
      reports := ReplaceById(reports, c.id, fallback);
      originalReports := ReplaceById(originalReports, c.id, fallback);
      ok := true;
    }

    /**
     * `handleSave`: tag, write the list without placeholders, show the tagged
     * list, take the stripped list as the new original, clear the unsaved
     * flag, then run the teaser pass against the original from before the save.
     */
    method Save(generate: Report -> Option<string>) returns (r: Outcome)
      modifies this`reports, this`originalReports, store`reports, edit`hasUnsavedChanges
      ensures r == if store.configured then Done else Failed(NotConfigured)
      ensures r.Failed? ==>
        && reports == old(reports) && originalReports == old(originalReports)
        && store.reports == old(store.reports) && edit.hasUnsavedChanges == old(edit.hasUnsavedChanges)
      ensures r.Done? ==>
        var tagged := TagPlaceholders(old(reports), old(originalReports));
        var cs := ChangedReports(tagged, old(originalReports));
        && reports == ApplyResolved(tagged, cs, generate)
        && originalReports == ApplyResolved(StripPlaceholders(tagged), cs, generate)
        && store.reports == StoreAfterPass(
             Sync(old(store.reports), ReportEntries(StripPlaceholders(tagged))), tagged, cs, generate)
        && !edit.hasUnsavedChanges
      ensures r.Done? && UniqueReportIds(old(reports)) ==> store.reports == Sync(old(store.reports), ReportEntries(old(reports)))
    {
      var original := originalReports;
      var tagged := TagPlaceholders(reports, original);
      var toSave := StripPlaceholders(tagged);
      r := store.SaveReports(toSave);
      if r.Failed? {
        return;
      }
      if UniqueReportIds(reports) {
        SaveThenPassStore(old(store.reports), reports, original, generate);
      }
      reports := tagged;
      originalReports := toSave;
      edit.SetHasUnsavedChanges(false);
      GenerateTeasers(tagged, original, generate);
    }

    /** `handleSaveAndExit`: as `handleSave`, and on success edit mode ends too. */
    method SaveAndExit(generate: Report -> Option<string>) returns (r: Outcome)
      modifies this`reports, this`originalReports, store`reports, edit`hasUnsavedChanges, edit`isEditMode
      ensures r == if store.configured then Done else Failed(NotConfigured)
      ensures r.Failed? ==>
        && reports == old(reports) && originalReports == old(originalReports) && store.reports == old(store.reports)
        && edit.hasUnsavedChanges == old(edit.hasUnsavedChanges) && edit.isEditMode == old(edit.isEditMode)
      ensures r.Done? ==>
        var tagged := TagPlaceholders(old(reports), old(originalReports));
        var cs := ChangedReports(tagged, old(originalReports));
        && reports == ApplyResolved(tagged, cs, generate)
        && originalReports == ApplyResolved(StripPlaceholders(tagged), cs, generate)
        && !edit.hasUnsavedChanges && !edit.isEditMode
      ensures r.Done? && UniqueReportIds(old(reports)) ==> store.reports == Sync(old(store.reports), ReportEntries(old(reports)))
    {
      r := Save(generate);
      if r.Done? {
        edit.DisableEditMode();
      }
    }

    /** `saveModalEdit`: as `handleSave`, and on success the detail dialog closes. */
    method SaveModalEdit(generate: Report -> Option<string>) returns (r: Outcome)
      modifies this`reports, this`originalReports, this`selectedReportId, this`isModalEditing, store`reports,
        edit`hasUnsavedChanges
      ensures r == if store.configured then Done else Failed(NotConfigured)
      ensures r.Failed? ==>
        && reports == old(reports) && originalReports == old(originalReports) && store.reports == old(store.reports)
        && selectedReportId == old(selectedReportId) && isModalEditing == old(isModalEditing)
      ensures r.Done? ==>
        var tagged := TagPlaceholders(old(reports), old(originalReports));
        var cs := ChangedReports(tagged, old(originalReports));
        && reports == ApplyResolved(tagged, cs, generate)
        && originalReports == ApplyResolved(StripPlaceholders(tagged), cs, generate)
        && !edit.hasUnsavedChanges && selectedReportId == None && !isModalEditing
      ensures r.Done? && UniqueReportIds(old(reports)) ==> store.reports == Sync(old(store.reports), ReportEntries(old(reports)))
    {
      r := Save(generate);
      if r.Done? {
        isModalEditing := false;
        selectedReportId := None;
      }
    }

    /**
     * The `onConfirm` of `handleSaveToHistory`: once the week is archived
     * (`weekId`; `None` when archiving threw), the cleared list is written
     * and becomes both the page's list and its original.
     */
    method SaveToHistory(weekId: Option<string>) returns (ok: bool)
      modifies this`reports, this`originalReports, store`reports
      ensures ok <==> weekId.Some? && store.configured
      ensures ok ==> reports == ClearReports(old(reports)) && originalReports == ClearReports(old(reports))
      ensures ok ==> store.reports == Sync(old(store.reports), ReportEntries(ClearReports(old(reports))))
      ensures !ok ==> reports == old(reports) && originalReports == old(originalReports) && store.reports == old(store.reports)
      ensures store.members == old(store.members)
      ensures currentReportIndex == old(currentReportIndex) && selectedReportId == old(selectedReportId)
    {
      if weekId.None? {
        return false;
      }
      var cleared := ClearReports(reports);
      var r := store.SaveReports(cleared);
      if r.Failed? {
        return false;
      }
      reports := cleared;
      originalReports := cleared;
      ok := true;
    }

    /** `handleUpdateReport`: the field changes locally and the page has unsaved changes. */
    method UpdateReport(id: string, f: ReportField, v: string)
      modifies this`reports, edit`hasUnsavedChanges
      ensures reports == UpdateReports(old(reports), id, f, v)
      ensures originalReports == old(originalReports) && currentReportIndex == old(currentReportIndex)
      ensures edit.hasUnsavedChanges && edit.isEditMode == old(edit.isEditMode)
    {
      reports := UpdateReports(reports, id, f, v);
      edit.SetHasUnsavedChanges(true);
    }

    /**
     * `handleVoiceInput`: the transcript's summary replaces the three texts
     * of that report and marks the page unsaved; when summarising fails
     * nothing changes.
     */
    method VoiceInput(reportId: string, apiKey: string, reply: Option<string>, parse: string -> Option<Doc>)
      returns (r: Result<Summary, GeminiError>)
      modifies this`reports, edit`hasUnsavedChanges
      ensures r == SummarizeReport(apiKey, reply, parse)
      ensures r.Ok? ==> reports == WithSummary(old(reports), reportId, r.value) && edit.hasUnsavedChanges
      ensures r.Err? ==> reports == old(reports) && edit.hasUnsavedChanges == old(edit.hasUnsavedChanges)
    {
      r := SummarizeReport(apiKey, reply, parse);
      if r.Ok? {
        reports := WithSummary(reports, reportId, r.value);
        edit.SetHasUnsavedChanges(true);
      }
    }

    /** `handleAddReport`: an empty report is appended and shown. */
    method AddReport(now: nat)
      modifies this`reports, this`currentReportIndex, edit`hasUnsavedChanges
      ensures reports == old(reports) + [NewReport(now)]
      ensures currentReportIndex == |reports| - 1 && reports[currentReportIndex] == NewReport(now)
      ensures originalReports == old(originalReports)
      ensures edit.hasUnsavedChanges && edit.isEditMode == old(edit.isEditMode)
    {
      reports := reports + [NewReport(now)];
      currentReportIndex := |reports| - 1;
      edit.SetHasUnsavedChanges(true);
    }

    /**
     * The `onConfirm` of `handleDeleteReport`: the report leaves the page's
     * list only, and the index moves to the left neighbour (0 when the first
     * was shown or the list is now empty).
     */
    method ConfirmDeleteReport(id: string)
      modifies this`reports, this`currentReportIndex, edit`hasUnsavedChanges
      ensures reports == WithoutReport(old(reports), id)
      ensures currentReportIndex == IndexAfterDelete(|reports|, old(currentReportIndex))
      ensures |reports| == 0 ==> currentReportIndex == 0
      ensures |reports| > 0 && old(currentReportIndex) != 0 ==> currentReportIndex == old(currentReportIndex) - 1
      ensures forall r :: r in reports <==> r in old(reports) && r.id != id
      ensures originalReports == old(originalReports)
      ensures edit.hasUnsavedChanges && edit.isEditMode == old(edit.isEditMode)
    {
      WithoutReportExactly(reports, id);
      var deletedIndex := currentReportIndex;
      reports := WithoutReport(reports, id);
      currentReportIndex := IndexAfterDelete(|reports|, deletedIndex);
      edit.SetHasUnsavedChanges(true);
    }

    /** The second `onConfirm` of `handleLongPressDelete`: the report leaves the list; the index is kept. */
    method ConfirmLongPressDelete(id: string)
      modifies this`reports, edit`hasUnsavedChanges
      ensures reports == WithoutReport(old(reports), id)
      ensures forall r :: r in reports <==> r in old(reports) && r.id != id
      ensures currentReportIndex == old(currentReportIndex) && originalReports == old(originalReports)
      ensures edit.hasUnsavedChanges && edit.isEditMode == old(edit.isEditMode)
    {
      WithoutReportExactly(reports, id);
      reports := WithoutReport(reports, id);
      edit.SetHasUnsavedChanges(true);
    }

    /** `handleRAGSearch`: the answer shown; a blank question leaves it alone, anything else clears it first. */
    method AskQuestion(question: string, embeddings: Option<seq<EmbeddingResult>>, apiKey: string,
                       queryReply: Option<seq<int>>, answerReply: Option<string>, score: Similarity -> int)
      returns (r: RagOutcome)
      modifies this`ragAnswer
      ensures r == RagSearch(question, embeddings, apiKey, queryReply, answerReply, score)
      ensures ragAnswer == match r
        case EmptyQuestion => old(ragAnswer)
        case Answered(_, answer) => answer
        case _ => ""
      ensures reports == old(reports) && originalReports == old(originalReports)
    {
      r := RagSearch(question, embeddings, apiKey, queryReply, answerReply, score);
      if r == EmptyQuestion {
        return;
      }
      ragAnswer := "";
      if r.Answered? {
        ragAnswer := r.answer;
      }
    }
  }
}
