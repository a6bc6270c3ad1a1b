/**
 * The application's records (lib/data.ts). Optional properties are `Option`s:
 * `None` is a property that is absent (`undefined`).
 */
module Data {
  import opened Values

  /** A member profile. */
  datatype Member = Member(
    id: string,
    name: string,
    nickname: string,
    tagline: string,
    imageNo1: Option<string>,
    imageNo2: Option<string>,
    birthDate: Option<string>,
    hometown: Option<string>,
    hobbies: Option<string>,
    thoughts: Option<string>,
    career: Option<string>)

  /** A member's weekly report; `teaser` is the short AI-written opening line. */
  datatype Report = Report(
    id: string,
    nickname: string,
    currentTrial: string,
    progress: string,
    result: string,
    teaser: Option<string>)

  /** One report's text and its embedding vector (integers stand in for the floats). */
  datatype ReportEmbedding = ReportEmbedding(
    reportId: string,
    nickname: string,
    text: string,
    embedding: seq<int>)

  /** A weekly snapshot of all reports. */
  datatype ReportHistory = ReportHistory(
    weekId: string,
    savedAt: string,
    reports: seq<Report>,
    embeddings: Option<seq<ReportEmbedding>>)

  /** An entry of the idea log. */
  datatype Idea = Idea(
    id: string,
    memberId: string,
    memberName: string,
    ideaName: string,
    content: string,
    rejectionReason: Option<string>,
    createdAt: string,
    updatedAt: string)

  /** The set of ids of a list of reports. */
  function ReportIds(rs: seq<Report>): set<string>
  {
    set r | r in rs :: r.id
  }

  /** The set of ids of a list of members. */
  function MemberIds(ms: seq<Member>): set<string>
  {
    set m | m in ms :: m.id
  }

  lemma ReportIdsAppend(rs: seq<Report>, r: Report)
    ensures ReportIds(rs + [r]) == ReportIds(rs) + {r.id}
  {
    assert forall x :: x in rs + [r] <==> x in rs || x == r;
  }

  lemma MemberIdsAppend(ms: seq<Member>, m: Member)
    ensures MemberIds(ms + [m]) == MemberIds(ms) + {m.id}
  {
    assert forall x :: x in ms + [m] <==> x in ms || x == m;
  }
}
