/**
 * The Gemini helpers of lib/gemini.ts, around the model calls: the API-key
 * check, the cosine-similarity accumulation and its dimension check, the
 * top-K ranking of `searchSimilarTexts`, the JSON extraction and defaulting
 * of the report summary, the teaser cleanup and the idea-title fallback.
 *
 * A model reply is a parameter (`Some(text)`, or `None` when the call
 * throws). The floating-point cosine is represented by its three integer sums
 * (dot product and the two squared norms); a ranking score is an abstract
 * integer function of them.
 */
module Gemini {
  import opened Values

  datatype GeminiError =
    | MissingApiKey       // 'Gemini API キーが設定されていません'
    | DimensionMismatch   // 'ベクトルの長さが一致しません'
    | SummaryFailed       // 'AI要約に失敗しました。再度お試しください。'
    | EmbeddingFailed     // '埋め込み生成に失敗しました'
    | AnswerFailed        // '回答生成に失敗しました'

  // ---------------------------------------------------------------------
  // API key

  /** `validateGeminiApiKey`. */
  function ValidateGeminiApiKey(apiKey: string): (ok: bool)
    ensures ok <==> StartsWith(apiKey, "AIza") && |apiKey| > 30
    ensures ok ==> apiKey[..4] == "AIza" && |apiKey| >= 31
  {
    StartsWith(apiKey, "AIza") && |apiKey| > 30
  }

  // ---------------------------------------------------------------------
  // Cosine similarity

  /** The sum of the products `a[i] * b[i]`. */
  function Dot(a: seq<int>, b: seq<int>): int
    requires |a| == |b|
    decreases |a|
  {
    if a == [] then 0 else Dot(a[..|a| - 1], b[..|b| - 1]) + a[|a| - 1] * b[|b| - 1]
  }

  /** The three sums `cosineSimilarity` divides: `dot / (sqrt(normA) * sqrt(normB))`. */
  datatype Similarity = Similarity(dot: int, normA: int, normB: int)

  /** What `cosineSimilarity` computes, or the error it throws. */
  function SimilarityOf(a: seq<int>, b: seq<int>): Result<Similarity, GeminiError>
  {
    if |a| != |b| then Err(DimensionMismatch)
    else Ok(Similarity(Dot(a, b), Dot(a, a), Dot(b, b)))
  }

  /** `cosineSimilarity`: the length check, then the accumulation loop. */
  method CosineSimilarity(a: seq<int>, b: seq<int>) returns (r: Result<Similarity, GeminiError>)
    ensures r.Err? <==> |a| != |b|
    ensures r == SimilarityOf(a, b)
  {
    if |a| != |b| {
      return Err(DimensionMismatch);
    }
    var dotProduct, normA, normB := 0, 0, 0;
    var i := 0;
    while i < |a|
      invariant 0 <= i <= |a|
      invariant dotProduct == Dot(a[..i], b[..i])
      invariant normA == Dot(a[..i], a[..i])
      invariant normB == Dot(b[..i], b[..i])
    {
      assert a[..i + 1][..i] == a[..i] && b[..i + 1][..i] == b[..i];
      dotProduct := dotProduct + a[i] * b[i];
      normA := normA + a[i] * a[i];
      normB := normB + b[i] * b[i];
      i := i + 1;
    }
    assert a[..|a|] == a && b[..|b|] == b;
    r := Ok(Similarity(dotProduct, normA, normB));
  }

  /** The quadratic form `sum (x * b[i] - y * a[i])^2`, expanded, is never negative. */
  lemma {:induction false} CrossTermNonNegative(a: seq<int>, b: seq<int>, x: int, y: int)
    requires |a| == |b|
    ensures x * x * Dot(b, b) - 2 * x * y * Dot(a, b) + y * y * Dot(a, a) >= 0
    decreases |a|
  {
    if a != [] {
      var a0, b0 := a[..|a| - 1], b[..|b| - 1];
      var p, q := a[|a| - 1], b[|b| - 1];
      CrossTermNonNegative(a0, b0, x, y);
      var d := x * q - y * p;
      assert d * d >= 0;
      assert x * x * (q * q) - 2 * x * y * (p * q) + y * y * (p * p) == d * d;
      assert x * x * Dot(b, b) == x * x * Dot(b0, b0) + x * x * (q * q);
      assert 2 * x * y * Dot(a, b) == 2 * x * y * Dot(a0, b0) + 2 * x * y * (p * q);
      assert y * y * Dot(a, a) == y * y * Dot(a0, a0) + y * y * (p * p);
    }
  }

  /** Appending `(x, y)` adds the cross term to `A * B - D * D`. */
  lemma AppendExpansion(A: int, B: int, D: int, x: int, y: int)
    ensures (A + x * x) * (B + y * y) - (D + x * y) * (D + x * y)
      == (A * B - D * D) + (x * x * B - 2 * x * y * D + y * y * A)
  {
    assert (A + x * x) * (B + y * y) == A * B + A * (y * y) + (x * x) * B + (x * x) * (y * y);
    assert (D + x * y) * (D + x * y) == D * D + 2 * x * y * D + (x * y) * (x * y);
    assert (x * y) * (x * y) == (x * x) * (y * y);
  }

  /** Cauchy-Schwarz: the cosine lies in [-1, 1] whenever it is defined. */
  lemma {:induction false} CauchySchwarz(a: seq<int>, b: seq<int>)
    requires |a| == |b|
    ensures Dot(a, b) * Dot(a, b) <= Dot(a, a) * Dot(b, b)
    decreases |a|
  {
    if a != [] {
      var a0, b0 := a[..|a| - 1], b[..|b| - 1];
      var x, y := a[|a| - 1], b[|b| - 1];
      CauchySchwarz(a0, b0);
      CrossTermNonNegative(a0, b0, x, y);
      var A, B, D := Dot(a0, a0), Dot(b0, b0), Dot(a0, b0);
      assert Dot(a, a) == A + x * x && Dot(b, b) == B + y * y && Dot(a, b) == D + x * y;
      AppendExpansion(A, B, D, x, y);
    }
  }

  /** The similarity of a vector with any vector of the same length never exceeds 1 in absolute value. */
  lemma SimilarityBounded(a: seq<int>, b: seq<int>)
    requires |a| == |b|
    ensures SimilarityOf(a, b).Ok?
    ensures var s := SimilarityOf(a, b).value; s.dot * s.dot <= s.normA * s.normB
  {
    CauchySchwarz(a, b);
  }

  // ---------------------------------------------------------------------
  // Ranking

  /** One search hit: `{ text, score }`. */
  datatype Scored = Scored(text: string, score: int)

  /** `EmbeddingResult`: a text and its embedding. */
  datatype EmbeddingResult = EmbeddingResult(text: string, embedding: seq<int>)

  /** Places `x` before the first element whose score does not exceed its own. */
  function InsertDesc(x: Scored, t: seq<Scored>): (r: seq<Scored>)
    ensures multiset(r) == multiset(t) + multiset{x}
    decreases |t|
  {
    if t == [] || t[0].score <= x.score then [x] + t
    else assert t == [t[0]] + t[1..]; [t[0]] + InsertDesc(x, t[1..])
  }

  /** `sort((a, b) => b.score - a.score)`: a stable sort by descending score. */
  function SortDesc(s: seq<Scored>): (r: seq<Scored>)
    ensures multiset(r) == multiset(s)
    decreases |s|
  {
    if s == [] then [] else assert s == [s[0]] + s[1..]; InsertDesc(s[0], SortDesc(s[1..]))
  }

  ghost predicate SortedDesc(s: seq<Scored>)
  {
    forall i, j :: 0 <= i < j < |s| ==> s[i].score >= s[j].score
  }

  lemma {:induction false} InsertDescSorted(x: Scored, t: seq<Scored>)
    requires SortedDesc(t)
    ensures SortedDesc(InsertDesc(x, t))
    decreases |t|
  {
    if t != [] && t[0].score > x.score {
      InsertDescSorted(x, t[1..]);
      var rest := InsertDesc(x, t[1..]);
      forall e | e in rest ensures e.score <= t[0].score {
        assert e in multiset(rest);
        assert e == x || e in multiset(t[1..]);
      }
    }
  }

  lemma {:induction false} SortDescSorted(s: seq<Scored>)
    ensures SortedDesc(SortDesc(s))
    decreases |s|
  {
    if s != [] {
      SortDescSorted(s[1..]);
      InsertDescSorted(s[0], SortDesc(s[1..]));
    }
  }

  /** The elements of `s` with score `v`, in order. */
  function WithScore(s: seq<Scored>, v: int): seq<Scored>
    decreases |s|
  {
    if s == [] then []
    else (if s[0].score == v then [s[0]] else []) + WithScore(s[1..], v)
  }

  lemma {:induction false} InsertDescStable(x: Scored, t: seq<Scored>, v: int)
    ensures WithScore(InsertDesc(x, t), v) == (if x.score == v then [x] else []) + WithScore(t, v)
    decreases |t|
  {
    if t == [] || t[0].score <= x.score {
      assert ([x] + t)[1..] == t;
    } else {
      InsertDescStable(x, t[1..], v);
      assert ([t[0]] + InsertDesc(x, t[1..]))[1..] == InsertDesc(x, t[1..]);
    }
  }

  /** Stability: items with equal scores keep their input order. */
  lemma {:induction false} SortDescStable(s: seq<Scored>, v: int)
    ensures WithScore(SortDesc(s), v) == WithScore(s, v)
    decreases |s|
  {
    if s != [] {
      SortDescStable(s[1..], v);
      InsertDescStable(s[0], SortDesc(s[1..]), v);
    }
  }

  /** `s.slice(0, k)`: a negative `k` counts from the end. */
  function SliceTo<T>(s: seq<T>, k: int): (r: seq<T>)
    ensures k >= 0 ==> |r| == if k < |s| then k else |s|
    ensures k < 0 ==> |r| == if |s| + k > 0 then |s| + k else 0
    ensures r == s[..|r|]
  {
    if k >= 0 then (if k < |s| then s[..k] else s)
    else if |s| + k > 0 then s[..|s| + k]
    else []
  }

  /** The scored hits, before sorting. */
  function ScoreAll(query: seq<int>, docs: seq<EmbeddingResult>, score: Similarity -> int): (r: seq<Scored>)
    requires forall i :: 0 <= i < |docs| ==> |docs[i].embedding| == |query|
    ensures |r| == |docs|
    ensures forall i :: 0 <= i < |r| ==> r[i].text == docs[i].text
  {
    seq(|docs|, i requires 0 <= i < |docs| =>
      Scored(docs[i].text, score(Similarity(Dot(query, docs[i].embedding), Dot(query, query),
        Dot(docs[i].embedding, docs[i].embedding)))))
  }

  /**
   * `searchSimilarTexts`: the query embedding (or the error that computing it
   * threw), the documents, `topK`, and the abstract score of a similarity.
   * A document whose embedding differs in length makes `cosineSimilarity` throw.
   */
  function SearchSimilarTexts(query: Result<seq<int>, GeminiError>, docs: seq<EmbeddingResult>, topK: int,
                              score: Similarity -> int): (r: Result<seq<Scored>, GeminiError>)
    ensures query.Err? ==> r == Err(query.error)
    ensures query.Ok? && (exists i :: 0 <= i < |docs| && |docs[i].embedding| != |query.value|) ==> r == Err(DimensionMismatch)
    ensures query.Ok? && (forall i :: 0 <= i < |docs| ==> |docs[i].embedding| == |query.value|) ==> r.Ok?
  {
    if query.Err? then Err(query.error)
    else if exists i :: 0 <= i < |docs| && |docs[i].embedding| != |query.value| then Err(DimensionMismatch)
    else Ok(SliceTo(SortDesc(ScoreAll(query.value, docs, score)), topK))
  }

  /** In a descending list, nothing after a prefix scores higher than anything in it. */
  lemma PrefixIsBest(sorted: seq<Scored>, k: nat)
    requires SortedDesc(sorted) && k <= |sorted|
    ensures forall h: Scored, e: Scored :: h in sorted[..k] && e in multiset(sorted) - multiset(sorted[..k]) ==> e.score <= h.score
  {
    assert sorted == sorted[..k] + sorted[k..];
    assert multiset(sorted) == multiset(sorted[..k]) + multiset(sorted[k..]);
    forall h: Scored, e: Scored | h in sorted[..k] && e in multiset(sorted) - multiset(sorted[..k])
      ensures e.score <= h.score
    {
      assert e in multiset(sorted[k..]);
      var j :| k <= j < |sorted| && sorted[j] == e;
      var i :| 0 <= i < k && sorted[i] == h;
    }
  }

  /** A prefix of a descending list is descending. */
  lemma PrefixSorted(sorted: seq<Scored>, k: nat)
    requires SortedDesc(sorted) && k <= |sorted|
    ensures SortedDesc(sorted[..k]) && multiset(sorted[..k]) <= multiset(sorted)
  {
    assert sorted == sorted[..k] + sorted[k..];
  }

  /**
   * A successful search returns `min(topK, |docs|)` hits (for `topK >= 0`), by
   * non-increasing score, each one a scored input document, and no document
   * left out scores higher than any hit.
   */
  lemma SearchRanked(query: Result<seq<int>, GeminiError>, docs: seq<EmbeddingResult>, topK: int, score: Similarity -> int)
    requires SearchSimilarTexts(query, docs, topK, score).Ok?
    ensures var hits := SearchSimilarTexts(query, docs, topK, score).value;
      var all := ScoreAll(query.value, docs, score);
      && (topK >= 0 ==> |hits| == if topK < |docs| then topK else |docs|)
      && SortedDesc(hits)
      && multiset(hits) <= multiset(all)
      && (forall h: Scored, e: Scored :: h in hits && e in multiset(all) - multiset(hits) ==> e.score <= h.score)
  {
    var all := ScoreAll(query.value, docs, score);
    var sorted := SortDesc(all);
    var hits := SliceTo(sorted, topK);
    assert hits == sorted[..|hits|];
    SortDescSorted(all);
    PrefixSorted(sorted, |hits|);
    PrefixIsBest(sorted, |hits|);
  }

  // ---------------------------------------------------------------------
  // Report summary

  /** The index of the first occurrence of `c`. */
  function FirstIndexOf(s: string, c: char): (r: Option<nat>)
    ensures r.Some? ==> r.value < |s| && s[r.value] == c && forall k :: 0 <= k < r.value ==> s[k] != c
    ensures r.None? ==> forall k :: 0 <= k < |s| ==> s[k] != c
    decreases |s|
  {
    if s == [] then None
    else if s[0] == c then Some(0)
    else match FirstIndexOf(s[1..], c)
      case None => None
      case Some(i) => Some(i + 1)
  }

  /** The index of the last occurrence of `c`. */
  function LastIndexOf(s: string, c: char): (r: Option<nat>)
    ensures r.Some? ==> r.value < |s| && s[r.value] == c && forall k :: r.value < k < |s| ==> s[k] != c
    ensures r.None? ==> forall k :: 0 <= k < |s| ==> s[k] != c
    decreases |s|
  {
    if s == [] then None
    else if s[|s| - 1] == c then Some(|s| - 1)
    else LastIndexOf(s[..|s| - 1], c)
  }

  /** `text.match(/\{[\s\S]*\}/)`: from the first `{` to the last `}` after it. */
  function JsonSpan(text: string): (r: Option<string>)
  {
    match (FirstIndexOf(text, '{'), LastIndexOf(text, '}'))
    case (Some(i), Some(j)) => if i < j then Some(text[i..j + 1]) else None
    case _ => None
  }

  /** A span exists exactly when some `{` precedes some `}`. */
  lemma JsonSpanExists(text: string)
    ensures JsonSpan(text).Some? <==> exists i, j :: 0 <= i < j < |text| && text[i] == '{' && text[j] == '}'
  {
    var first, last := FirstIndexOf(text, '{'), LastIndexOf(text, '}');
    if first.Some? && last.Some? && first.value < last.value {
      assert text[first.value] == '{' && text[last.value] == '}';
    }
  }

  /** The span runs from the first `{` of the text to its last `}`. */
  lemma JsonSpanBounds(text: string)
    requires JsonSpan(text).Some?
    ensures exists i, j ::
      && 0 <= i < j < |text| && JsonSpan(text).value == text[i..j + 1]
      && text[i] == '{' && text[j] == '}'
      && (forall k :: 0 <= k < i ==> text[k] != '{')
      && (forall k :: j < k < |text| ==> text[k] != '}')
  {
    var i, j := FirstIndexOf(text, '{').value, LastIndexOf(text, '}').value;
    assert JsonSpan(text).value == text[i..j + 1];
  }

  const NoReport := "今週の報告なし"

  /** The structured summary. */
  datatype Summary = Summary(currentTrial: string, progress: string, result: string)

  /** `summary.f || '今週の報告なし'`. */
  function SummaryField(parsed: Doc, key: string): (s: string)
  {
    if TruthyField(Field(parsed, key)) then Display(parsed[key]) else NoReport
  }

  /**
   * `summarizeReportWithAI`. `reply` is the model's text (`None` if the call
   * threw); `parse` is `JSON.parse` on an object (`None` if it throws).
   */
  function SummarizeReport(apiKey: string, reply: Option<string>, parse: string -> Option<Doc>): (r: Result<Summary, GeminiError>)
    ensures apiKey == "" ==> r == Err(MissingApiKey)
    ensures apiKey != "" && reply.Some? && JsonSpan(reply.value).None? ==> r == Err(SummaryFailed)
    ensures r.Ok? <==> apiKey != "" && reply.Some? && JsonSpan(reply.value).Some? && parse(JsonSpan(reply.value).value).Some?
    ensures apiKey != "" && r.Err? ==> r == Err(SummaryFailed)
    ensures r.Ok? ==> var parsed := parse(JsonSpan(reply.value).value).value;
      r.value == Summary(SummaryField(parsed, "currentTrial"), SummaryField(parsed, "progress"), SummaryField(parsed, "result"))
  {
    if apiKey == "" then Err(MissingApiKey)
    else if reply.None? then Err(SummaryFailed)
    else match JsonSpan(reply.value)
      case None => Err(SummaryFailed)
      case Some(span) =>
        match parse(span)
        case None => Err(SummaryFailed)
        case Some(parsed) =>
          Ok(Summary(SummaryField(parsed, "currentTrial"), SummaryField(parsed, "progress"),
            SummaryField(parsed, "result")))
  }

  /** Empty or missing fields become '今週の報告なし'; non-empty strings are kept. */
  lemma SummaryDefaults(parsed: Doc, key: string)
    ensures SummaryField(parsed, key) != ""
    ensures key in parsed && parsed[key].Str? && parsed[key].s != "" ==> SummaryField(parsed, key) == parsed[key].s
    ensures key !in parsed || parsed[key] == Str("") || parsed[key] == Null ==> SummaryField(parsed, key) == NoReport
  {
    if TruthyField(Field(parsed, key)) {
      var v := parsed[key];
      if v.Num? && v.n >= 0 {
        assert |NatToString(v.n)| > 0;
      }
    }
  }

  // ---------------------------------------------------------------------
  // Teaser

  const DefaultTeaser := "報告あり..."

  predicate IsOpeningQuote(c: char) { c == '"' || c == '\'' || c == '「' || c == '『' }

  predicate IsClosingQuote(c: char) { c == '"' || c == '\'' || c == '」' || c == '』' }

  /**
   * `s.replace(/^["'「『]|["'」』]$/g, '')`: drops one leading opening quote and
   * one trailing closing quote; a one-character string loses that character once.
   */
  function StripQuotes(s: string): (r: string)
    ensures var lead := if |s| > 0 && IsOpeningQuote(s[0]) then 1 else 0;
      var tail := if |s| > lead && IsClosingQuote(s[|s| - 1]) then 1 else 0;
      r == s[lead..|s| - tail]
  {
    var lead := if |s| > 0 && IsOpeningQuote(s[0]) then 1 else 0;
    var tail := if |s| > lead && IsClosingQuote(s[|s| - 1]) then 1 else 0;
    s[lead..|s| - tail]
  }

  /** `s.replace(/\n/g, '')`. */
  function RemoveNewlines(s: string): (r: string)
    ensures forall k :: 0 <= k < |r| ==> r[k] != '\n'
    ensures |r| <= |s|
    decreases |s|
  {
    if s == [] then []
    else (if s[0] == '\n' then [] else [s[0]]) + RemoveNewlines(s[1..])
  }

  /** Removing newlines keeps every other character, in order: it is the filter on `c != '\n'`. */
  lemma {:induction false} RemoveNewlinesKeepsOthers(s: string)
    ensures RemoveNewlines(s) == Filter(s, (c: char) => c != '\n')
    ensures |RemoveNewlines(s)| == |s| - multiset(s)['\n']
    decreases |s|
  {
    if s != [] {
      RemoveNewlinesKeepsOthers(s[1..]);
      assert s == [s[0]] + s[1..];
      FilterPrepend(s[0], s[1..], (c: char) => c != '\n');
      assert multiset(s) == multiset{s[0]} + multiset(s[1..]);
    }
  }

  /** The teaser text before the `...`: trimmed, unquoted, newlines removed, trimmed again, cut to 20. */
  function TeaserCore(reply: string): (core: string)
  {
    Prefix(Trim(RemoveNewlines(StripQuotes(Trim(reply)))), 20)
  }

  /** Trimming a string without newlines leaves none. */
  lemma TrimNoNewline(s: string)
    requires forall k :: 0 <= k < |s| ==> s[k] != '\n'
    ensures forall k :: 0 <= k < |Trim(s)| ==> Trim(s)[k] != '\n'
  {
    var t := Trim(s);
    var lb := LeadingBlanks(s);
    forall k | 0 <= k < |t| ensures t[k] != '\n' {
      assert t[k] == s[lb + k];
    }
  }

  /** The core is on one line and at most 20 characters long. */
  lemma TeaserCoreShape(reply: string)
    ensures |TeaserCore(reply)| <= 20
    ensures forall k :: 0 <= k < |TeaserCore(reply)| ==> TeaserCore(reply)[k] != '\n'
  {
    var oneLine := RemoveNewlines(StripQuotes(Trim(reply)));
    TrimNoNewline(oneLine);
    var t := Trim(oneLine);
    var core := Prefix(t, 20);
    assert core == t[..|core|];
    forall k | 0 <= k < |core| ensures core[k] != '\n' {
      assert core[k] == t[k];
    }
  }

  /** One line, ending in `...`, with at most 20 characters before it. */
  predicate TeaserShaped(t: string)
  {
    && 3 <= |t| <= 23 && t[|t| - 3..] == "..."
    && forall k :: 0 <= k < |t| ==> t[k] != '\n'
  }

  lemma EllipsisShaped(core: string)
    requires |core| <= 20 && forall k :: 0 <= k < |core| ==> core[k] != '\n'
    ensures TeaserShaped(core + "...")
  {
    var t := core + "...";
    assert t[|t| - 3..] == "...";
    forall k | 0 <= k < |t| ensures t[k] != '\n' {
      if k < |core| {
        assert t[k] == core[k];
      }
    }
  }

  /**
   * `generateReportTeaser`: throws without a key; a failed call gives the
   * default teaser; otherwise the cleaned reply, cut to 20 characters, plus `...`.
   */
  method GenerateReportTeaser(apiKey: string, reply: Option<string>) returns (r: Result<string, GeminiError>)
    ensures apiKey == "" <==> r == Err(MissingApiKey)
    ensures apiKey != "" && reply.None? ==> r == Ok(DefaultTeaser)
    ensures apiKey != "" && reply.Some? && TeaserCore(reply.value) == "" ==> r == Ok(DefaultTeaser)
    ensures apiKey != "" && reply.Some? && TeaserCore(reply.value) != "" ==> r == Ok(TeaserCore(reply.value) + "...")
    ensures r.Ok? ==> TeaserShaped(r.value)
  {
    if apiKey == "" {
      return Err(MissingApiKey);
    }
    if reply.None? {
      return Ok(DefaultTeaser);
    }
    var teaser := Trim(reply.value);
    teaser := StripQuotes(teaser);
    teaser := RemoveNewlines(teaser);
    teaser := Trim(teaser);
    if |teaser| > 20 {
      teaser := teaser[..20];
    }
    assert teaser == TeaserCore(reply.value);
    TeaserCoreShape(reply.value);
    if teaser != "" {
      EllipsisShaped(teaser);
      teaser := teaser + "...";
    } else {
      EllipsisShaped("報告あり");
      assert "報告あり" + "..." == DefaultTeaser;
      teaser := DefaultTeaser;
    }
    r := Ok(teaser);
  }

  // ---------------------------------------------------------------------
  // Idea title

  /** `content.substring(0, 30) + (content.length > 30 ? '...' : '')`. */
  function TitleFallback(content: string): (t: string)
    ensures |content| <= 30 ==> t == content
    ensures |content| > 30 ==> t == content[..30] + "..." && |t| == 33
  {
    Prefix(content, 30) + (if |content| > 30 then "..." else "")
  }

  /** `generateIdeaTitle`: the fallback without a key or on failure, else the trimmed reply cut to 30. */
  function GenerateIdeaTitle(content: string, apiKey: string, reply: Option<string>): (t: string)
    ensures apiKey == "" || reply.None? ==> t == TitleFallback(content)
    ensures apiKey != "" && reply.Some? ==> |t| <= 30 && StartsWith(Trim(reply.value), t)
    ensures apiKey != "" && reply.Some? && |Trim(reply.value)| <= 30 ==> t == Trim(reply.value)
    ensures apiKey != "" && reply.Some? && |Trim(reply.value)| > 30 ==> t == Trim(reply.value)[..30]
  {
    if apiKey == "" || reply.None? then TitleFallback(content)
    else
      var title := Trim(reply.value);
      if |title| > 30 then title[..30] else title
  }

  // ---------------------------------------------------------------------
  // Embedding and answer calls

  /** `generateEmbedding`: throws without a key, or when the call fails. */
  function GenerateEmbedding(apiKey: string, reply: Option<seq<int>>): (r: Result<seq<int>, GeminiError>)
    ensures r.Ok? <==> apiKey != "" && reply.Some?
    ensures r.Ok? ==> r.value == reply.value
    ensures apiKey == "" ==> r == Err(MissingApiKey)
  {
    if apiKey == "" then Err(MissingApiKey)
    else if reply.None? then Err(EmbeddingFailed)
    else Ok(reply.value)
  }

  /** `answerWithRAG`: throws without a key, or when the call fails; otherwise the reply text. */
  function AnswerWithRag(apiKey: string, reply: Option<string>): (r: Result<string, GeminiError>)
    ensures r.Ok? <==> apiKey != "" && reply.Some?
    ensures r.Ok? ==> r.value == reply.value
    ensures apiKey == "" ==> r == Err(MissingApiKey)
  {
    if apiKey == "" then Err(MissingApiKey)
    else if reply.None? then Err(AnswerFailed)
    else Ok(reply.value)
  }
}
