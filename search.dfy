/**
 * How `searchCourses` (src/index.ts) turns the matches returned by the vector
 * index into result entries: the rank, the title with its "No title"
 * fallback, the score with its default of 0, the schedule fields, and the
 * description cut to its first 200 characters.
 */
module Search {
  import opened JsText
  import opened Types
  import opened Upload

  const NO_TITLE := "No title"
  const PREVIEW_LENGTH := 200

  /** A match returned by the index: the score may be missing. */
  datatype QueryMatch = QueryMatch(id: string, score: Option<real>, metadata: UploadMetadata)

  /** What is displayed for one match. */
  datatype ResultEntry = ResultEntry(
    rank: nat,
    code: string,
    title: string,
    score: real,
    days: string,
    time: string,
    building: Option<string>,
    room: string,
    instructor: string,
    availableSeats: int,
    seatLimit: int,
    description: Option<string>,
    prerequisites: Option<string>)

  /** `s.slice(0, 200)`. */
  function Preview(s: string): (p: string)
    ensures |p| == Min(|s|, PREVIEW_LENGTH)
    ensures p == s[..|p|]
  {
    if |s| <= PREVIEW_LENGTH then s else s[..PREVIEW_LENGTH]
  }

  /** The entry for the match at position `i` of the result list. */
  function FormatMatch(m: QueryMatch, i: nat): (e: ResultEntry)
    ensures e.rank == i + 1
    ensures e.title != ""
    ensures m.score.None? ==> e.score == 0.0
    ensures m.score.Some? ==> e.score == m.score.value
    ensures e.description.Some? <==> m.metadata.description != ""
    ensures e.description.Some? ==>
      e.description.value == m.metadata.description[..Min(|m.metadata.description|, PREVIEW_LENGTH)]
    ensures e.prerequisites.Some? <==> m.metadata.prerequisites != ""
  {
    var md := m.metadata;
    ResultEntry(
      i + 1,
      md.code,
      OrElse(md.title, NO_TITLE),
      match m.score case Some(v) => v case None => 0.0,
      md.days, md.time, md.building, md.room, md.instructor, md.availableSeats, md.seatLimit,
      if md.description != "" then Some(Preview(md.description)) else None,
      if md.prerequisites != "" then Some(md.prerequisites) else None)
  }

  /** `results.matches.forEach((match, i) => ...)`: one entry per match, ranked from 1 in result order. */
  function FormatResults(matches: seq<QueryMatch>): (entries: seq<ResultEntry>)
    ensures |entries| == |matches|
    ensures forall i :: 0 <= i < |matches| ==> entries[i] == FormatMatch(matches[i], i)
  {
    seq(|matches|, i requires 0 <= i < |matches| => FormatMatch(matches[i], i))
  }

  /** The ranks of the displayed results are 1, 2, 3, ... and every displayed title is non-empty. */
  lemma ResultRanks(matches: seq<QueryMatch>)
    ensures forall i :: 0 <= i < |matches| ==>
      FormatResults(matches)[i].rank == i + 1 && FormatResults(matches)[i].title != ""
  {
  }

  /**
   * A record that went through the upload is displayed with its own code, its
   * title or "No title", a description preview only when it has a description,
   * a preview that is the whole description when it has at most 200
   * characters, prerequisites only when it has some, its schedule and seat
   * fields unchanged, and its score, or 0 when the index gave none.
   */
  lemma UploadedRecordDisplay(c: VectorizedCourse, score: Option<real>, i: nat)
    ensures var e := FormatMatch(QueryMatch(c.id, score, UploadMetadataOf(c)), i);
      && e.code == c.code
      && e.title == (if Truthy(c.title) then c.title.value else NO_TITLE)
      && (e.description.Some? <==> c.description != "")
      && (c.description != "" && |c.description| <= PREVIEW_LENGTH ==> e.description == Some(c.description))
      && (e.prerequisites.Some? <==> Truthy(c.prerequisites))
      && (Truthy(c.prerequisites) ==> e.prerequisites == c.prerequisites)
      && e.instructor == c.metadata.instructor && e.time == c.metadata.time && e.days == c.metadata.days
      && e.building == c.metadata.building && e.room == c.metadata.room
      && e.availableSeats == c.metadata.availableSeats && e.seatLimit == c.metadata.seatLimit
      && e.score == (if score.Some? then score.value else 0.0)
  {
  }
}
