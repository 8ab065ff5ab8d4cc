/**
 * The join and filter step of the sync run (`fetchAndFilterData` in
 * src/index.ts): keep the lecture sections outside RCLAS, keep the non-lab
 * courses that have such a section, match each kept course to its description
 * by the composed course code, and emit one `VectorizedCourse` per
 * (course, kept section) pair.
 *
 * The filters and lookups are functions; the assembly loop that pushes the
 * records is the method `FetchAndFilterData`, proved against `Joined`.
 */
module Join {
  import opened JsText
  import opened Types
  import opened Seqs

  const LECTURE := "Lecture"
  const LAB_BUILDING := "RCLAS"

  /** The course a section belongs to: the link itself, or the first element of a list. */
  function LinkedCourseId(link: CourseLink): Option<string> {
    match link
    case Single(id) => Some(id)
    case Many(ids) => if |ids| > 0 then Some(ids[0]) else None
  }

  /** `sectionCourseId === course.id`. */
  predicate LinksTo(s: Section, courseId: string) {
    LinkedCourseId(s.courseLink) == Some(courseId)
  }

  /** A lecture whose building is missing, empty, or not an RCLAS building. */
  predicate IsValidSection(s: Section) {
    s.meetingType == LECTURE && (!Truthy(s.building) || !Contains(s.building.value, LAB_BUILDING))
  }

  function ValidSections(sections: seq<Section>): seq<Section> {
    Filter(sections, IsValidSection)
  }

  /** `validSections.some(...)`: some kept section links to the course. */
  predicate HasValidSection(c: Course, validSections: seq<Section>) {
    exists i :: 0 <= i < |validSections| && LinksTo(validSections[i], c.id)
  }

  /** The lower-cased course name mentions neither "lab" nor "laboratory"; a missing name is not a lab. */
  predicate NotLab(c: Course) {
    match c.courseName
    case None => true
    case Some(name) => !Contains(Lower(name), "lab") && !Contains(Lower(name), "laboratory")
  }

  predicate IsValidCourse(c: Course, validSections: seq<Section>) {
    HasValidSection(c, validSections) && NotLab(c)
  }

  function IsValidCourseIn(validSections: seq<Section>): Course -> bool {
    c => IsValidCourse(c, validSections)
  }

  function ValidCourses(courses: seq<Course>, validSections: seq<Section>): seq<Course> {
    Filter(courses, IsValidCourseIn(validSections))
  }

  function LinksToCourse(courseId: string): Section -> bool {
    s => LinksTo(s, courseId)
  }

  /** The kept sections of one course, in section order. */
  function CourseSections(validSections: seq<Section>, courseId: string): seq<Section> {
    Filter(validSections, LinksToCourse(courseId))
  }

  /** `${course["Subject Code"]} ${course["Course Number"]}`. */
  function CourseCode(c: Course): string {
    c.subjectCode + " " + c.courseNumber
  }

  /** `ds[i]` is the first description whose code is `code`. */
  predicate FirstMatch(ds: seq<CourseDescription>, code: string, i: int) {
    0 <= i < |ds| && ds[i].code == code && forall j :: 0 <= j < i ==> ds[j].code != code
  }

  /** `descriptions.find(d => d.code === courseCode)`. */
  function FindDescription(ds: seq<CourseDescription>, code: string): (r: Option<CourseDescription>)
    ensures r.None? <==> forall i :: 0 <= i < |ds| ==> ds[i].code != code
    ensures r.Some? ==> exists i :: FirstMatch(ds, code, i) && ds[i] == r.value
  {
    if ds == [] then None
    else if ds[0].code == code then
      assert FirstMatch(ds, code, 0);
      Some(ds[0])
    else
      var r := FindDescription(ds[1..], code);
      assert forall i :: 1 <= i < |ds| ==> ds[i] == ds[1..][i - 1];
      assert r.Some? ==> exists i :: FirstMatch(ds[1..], code, i) && ds[1..][i] == r.value;
      assert forall i :: FirstMatch(ds[1..], code, i) ==> FirstMatch(ds, code, i + 1);
      r
  }

  /** The record pushed for one course, its description and one of its sections. */
  function MakeRecord(c: Course, d: CourseDescription, s: Section): VectorizedCourse {
    var title := Or(d.title, c.courseName);
    VectorizedCourse(
      d.id + "-" + s.id,
      d.code,
      title,
      d.description,
      d.prerequisites,
      CourseMetadata(
        d.units, c.subjectCode, c.courseNumber, s.instructor, s.time, s.building,
        s.room, s.days, s.availableSeats, s.seatLimit, title, CourseCode(c)))
  }

  /** The records of one course: one per section, in section order. */
  function SectionRecords(c: Course, d: CourseDescription, secs: seq<Section>): (r: seq<VectorizedCourse>)
    ensures |r| == |secs|
    ensures forall k :: 0 <= k < |secs| ==> r[k] == MakeRecord(c, d, secs[k])
  {
    if secs == [] then []
    else SectionRecords(c, d, secs[..|secs| - 1]) + [MakeRecord(c, d, secs[|secs| - 1])]
  }

  /** What one kept course contributes: nothing without a description. */
  function CourseRecords(c: Course, validSections: seq<Section>, ds: seq<CourseDescription>): seq<VectorizedCourse> {
    match FindDescription(ds, CourseCode(c))
    case None => []
    case Some(d) => SectionRecords(c, d, CourseSections(validSections, c.id))
  }

  /** `CourseRecords` as a function of the course alone. */
  function CourseRecordsOf(validSections: seq<Section>, ds: seq<CourseDescription>): Course -> seq<VectorizedCourse> {
    c => CourseRecords(c, validSections, ds)
  }

  /** The records of the kept courses, course after course. */
  function AllRecords(kept: seq<Course>, validSections: seq<Section>, ds: seq<CourseDescription>): seq<VectorizedCourse> {
    FlatMap(kept, CourseRecordsOf(validSections, ds))
  }

  /** The whole join: what `fetchAndFilterData` returns for the three fetched tables. */
  function Joined(courses: seq<Course>, sections: seq<Section>, ds: seq<CourseDescription>): seq<VectorizedCourse> {
    var validSections := ValidSections(sections);
    AllRecords(ValidCourses(courses, validSections), validSections, ds)
  }

  /**
   * The assembly loop of `fetchAndFilterData`: for every kept course, look up
   * its description (skip the course when there is none) and push one record
   * per kept section of that course.
   */
  method FetchAndFilterData(courses: seq<Course>, sections: seq<Section>, descriptions: seq<CourseDescription>)
    returns (vectorizedCourses: seq<VectorizedCourse>)
    ensures vectorizedCourses == Joined(courses, sections, descriptions)
  {
    var validSections := ValidSections(sections);
    var validCourses := ValidCourses(courses, validSections);
    ghost var recordsOf := CourseRecordsOf(validSections, descriptions);
    vectorizedCourses := [];
    for i := 0 to |validCourses|
      invariant vectorizedCourses == FlatMap(validCourses[..i], recordsOf)
    {
      var course := validCourses[i];
      var courseCode := CourseCode(course);
      var description := FindDescription(descriptions, courseCode);
      if description.None? {
        FlatMapPrefixSnoc(validCourses, i, recordsOf);
        NoDescriptionNoRecords(course, validSections, descriptions);
        continue;
      }
      var courseSections := CourseSections(validSections, course.id);
      vectorizedCourses := PushSectionRecords(vectorizedCourses, course, description.value, courseSections);
      FlatMapPrefixSnoc(validCourses, i, recordsOf);
    }
    assert validCourses[..|validCourses|] == validCourses;
  }

  /**
   * The inner loop of the assembly: push one record per section of the
   * course, in section order, after the records already collected.
   */
  method PushSectionRecords(collected: seq<VectorizedCourse>, course: Course, description: CourseDescription,
                            courseSections: seq<Section>)
    returns (vectorizedCourses: seq<VectorizedCourse>)
    ensures vectorizedCourses == collected + SectionRecords(course, description, courseSections)
  {
    vectorizedCourses := collected;
    for j := 0 to |courseSections|
      invariant vectorizedCourses == collected + SectionRecords(course, description, courseSections[..j])
    {
      SectionRecordsSnoc(course, description, courseSections, j);
      vectorizedCourses := vectorizedCourses + [MakeRecord(course, description, courseSections[j])];
    }
    assert courseSections[..|courseSections|] == courseSections;
  }

  lemma SectionRecordsSnoc(c: Course, d: CourseDescription, secs: seq<Section>, j: nat)
    requires j < |secs|
    ensures SectionRecords(c, d, secs[..j + 1]) == SectionRecords(c, d, secs[..j]) + [MakeRecord(c, d, secs[j])]
  {
    assert secs[..j + 1][..j] == secs[..j];
  }

  // ---------------------------------------------------------------------------
  // Which sections and courses are kept

  lemma ValidSectionMember(sections: seq<Section>, s: Section)
    ensures s in ValidSections(sections) <==> s in sections && IsValidSection(s)
  {
    FilterMembership(sections, IsValidSection, s);
  }

  lemma ValidCourseMember(courses: seq<Course>, validSections: seq<Section>, c: Course)
    ensures c in ValidCourses(courses, validSections) <==> c in courses && IsValidCourse(c, validSections)
  {
    FilterMembership(courses, IsValidCourseIn(validSections), c);
  }

  lemma CourseSectionMember(validSections: seq<Section>, courseId: string, s: Section)
    ensures s in CourseSections(validSections, courseId) <==> s in validSections && LinksTo(s, courseId)
  {
    FilterMembership(validSections, LinksToCourse(courseId), s);
  }

  /** A section is kept iff it is a lecture and its building is missing, empty or not RCLAS. */
  lemma SectionKeptIff(sections: seq<Section>, s: Section)
    ensures s in ValidSections(sections)
      <==> s in sections && s.meetingType == "Lecture"
           && (s.building == None || s.building == Some("") || !Contains(s.building.value, "RCLAS"))
  {
    ValidSectionMember(sections, s);
  }

  /** A list link names its first element; an empty list links to no course. */
  lemma ListLinkUsesFirst(s: Section, courseId: string)
    requires s.courseLink.Many?
    ensures LinksTo(s, courseId) <==> |s.courseLink.ids| > 0 && s.courseLink.ids[0] == courseId
    ensures s.courseLink.ids == [] ==> !LinksTo(s, courseId)
    ensures |s.courseLink.ids| > 0 ==> (LinksTo(s, courseId) <==> LinksTo(s.(courseLink := Single(s.courseLink.ids[0])), courseId))
  {
  }

  /**
   * A course is kept iff some kept section links to it and its lower-cased
   * name does not contain "lab" (the separate "laboratory" test adds nothing).
   */
  lemma CourseKeptIff(courses: seq<Course>, sections: seq<Section>, c: Course)
    ensures c in ValidCourses(courses, ValidSections(sections))
      <==> c in courses
           && (exists s :: s in sections && IsValidSection(s) && LinksTo(s, c.id))
           && (c.courseName == None || !Contains(Lower(c.courseName.value), "lab"))
  {
    var valid := ValidSections(sections);
    if c.courseName.Some? {
      LaboratoryContainsLab(Lower(c.courseName.value));
    }
    ValidCourseMember(courses, valid, c);
    if exists s :: s in sections && IsValidSection(s) && LinksTo(s, c.id) {
      var s :| s in sections && IsValidSection(s) && LinksTo(s, c.id);
      ValidSectionMember(sections, s);
      var k :| 0 <= k < |valid| && valid[k] == s;
      assert HasValidSection(c, valid);
    }
    if HasValidSection(c, valid) {
      var k :| 0 <= k < |valid| && LinksTo(valid[k], c.id);
      ValidSectionMember(sections, valid[k]);
    }
  }

  // ---------------------------------------------------------------------------
  // Description lookup

  /** A kept course without a description contributes no records. */
  lemma NoDescriptionNoRecords(c: Course, validSections: seq<Section>, ds: seq<CourseDescription>)
    requires forall i :: 0 <= i < |ds| ==> ds[i].code != CourseCode(c)
    ensures CourseRecordsOf(validSections, ds)(c) == []
  {
  }

  /** The lookup returns the first description whose code matches, in description order. */
  lemma FindDescriptionIsFirst(ds: seq<CourseDescription>, code: string, i: int)
    requires FirstMatch(ds, code, i)
    ensures FindDescription(ds, code) == Some(ds[i])
  {
    var r := FindDescription(ds, code);
    var i' :| FirstMatch(ds, code, i') && ds[i'] == r.value;
  }

  // ---------------------------------------------------------------------------
  // Count and order of the output

  /** The number of records a kept course contributes. */
  function CourseRecordCount(c: Course, validSections: seq<Section>, ds: seq<CourseDescription>): nat {
    if FindDescription(ds, CourseCode(c)).Some? then |CourseSections(validSections, c.id)| else 0
  }

  /** The sum of `CourseRecordCount` over the kept courses. */
  function RecordCount(kept: seq<Course>, validSections: seq<Section>, ds: seq<CourseDescription>): nat {
    if kept == [] then 0
    else RecordCount(kept[..|kept| - 1], validSections, ds) + CourseRecordCount(kept[|kept| - 1], validSections, ds)
  }

  /**
   * The output has, for each kept course with a description, as many records
   * as that course has kept sections.
   */
  lemma {:induction false} AllRecordsLength(kept: seq<Course>, validSections: seq<Section>, ds: seq<CourseDescription>)
    ensures |AllRecords(kept, validSections, ds)| == RecordCount(kept, validSections, ds)
  {
    if kept != [] {
      AllRecordsLength(kept[..|kept| - 1], validSections, ds);
    }
  }

  lemma JoinedLength(courses: seq<Course>, sections: seq<Section>, ds: seq<CourseDescription>)
    ensures var valid := ValidSections(sections);
      |Joined(courses, sections, ds)| == RecordCount(ValidCourses(courses, valid), valid, ds)
  {
    var valid := ValidSections(sections);
    AllRecordsLength(ValidCourses(courses, valid), valid, ds);
  }

  /** Output order is course order: the records of earlier courses come first. */
  lemma AllRecordsAppend(a: seq<Course>, b: seq<Course>, validSections: seq<Section>, ds: seq<CourseDescription>)
    ensures AllRecords(a + b, validSections, ds) == AllRecords(a, validSections, ds) + AllRecords(b, validSections, ds)
  {
    FlatMapAppend(a, b, CourseRecordsOf(validSections, ds));
  }

  /** Within one course the records follow section order, with distinct ids when the section ids are distinct. */
  lemma CourseRecordIdsDistinct(c: Course, d: CourseDescription, secs: seq<Section>)
    requires forall j, k :: 0 <= j < k < |secs| ==> secs[j].id != secs[k].id
    ensures forall j, k :: 0 <= j < k < |secs| ==>
      SectionRecords(c, d, secs)[j].id != SectionRecords(c, d, secs)[k].id
  {
    var recs := SectionRecords(c, d, secs);
    var prefix := d.id + "-";
    forall j, k | 0 <= j < k < |secs|
      ensures recs[j].id != recs[k].id
    {
      assert recs[j].id == prefix + secs[j].id;
      assert recs[k].id == prefix + secs[k].id;
      assert (prefix + secs[j].id)[|prefix|..] == secs[j].id;
      assert (prefix + secs[k].id)[|prefix|..] == secs[k].id;
    }
  }

  // ---------------------------------------------------------------------------
  // What each record is made of

  /** `c` is a kept course, `s` one of its kept sections and `ds[i]` its description. */
  ghost predicate JoinTriple(courses: seq<Course>, sections: seq<Section>, ds: seq<CourseDescription>,
                             c: Course, s: Section, i: int)
  {
    c in courses && IsValidCourse(c, ValidSections(sections))
    && s in sections && IsValidSection(s) && LinksTo(s, c.id)
    && FirstMatch(ds, CourseCode(c), i)
  }

  lemma {:induction false} AllRecordsSound(kept: seq<Course>, validSections: seq<Section>,
                                           ds: seq<CourseDescription>, r: VectorizedCourse)
    requires r in AllRecords(kept, validSections, ds)
    ensures exists c, s, i :: (c in kept && s in validSections && LinksTo(s, c.id)
      && FirstMatch(ds, CourseCode(c), i) && r == MakeRecord(c, ds[i], s))
  {
    var init, last := kept[..|kept| - 1], kept[|kept| - 1];
    if r in AllRecords(init, validSections, ds) {
      AllRecordsSound(init, validSections, ds, r);
      var c, s, i :| c in init && s in validSections && LinksTo(s, c.id)
        && FirstMatch(ds, CourseCode(c), i) && r == MakeRecord(c, ds[i], s);
      assert c in kept;
    } else {
      var d := FindDescription(ds, CourseCode(last)).value;
      var i :| FirstMatch(ds, CourseCode(last), i) && ds[i] == d;
      var secs := CourseSections(validSections, last.id);
      var k :| 0 <= k < |secs| && SectionRecords(last, d, secs)[k] == r;
      CourseSectionMember(validSections, last.id, secs[k]);
    }
  }

  lemma {:induction false} AllRecordsComplete(kept: seq<Course>, validSections: seq<Section>,
                                              ds: seq<CourseDescription>, c: Course, s: Section, i: int)
    requires c in kept && s in validSections && LinksTo(s, c.id) && FirstMatch(ds, CourseCode(c), i)
    ensures MakeRecord(c, ds[i], s) in AllRecords(kept, validSections, ds)
  {
    var init, last := kept[..|kept| - 1], kept[|kept| - 1];
    assert kept == init + [last];
    if c in init {
      AllRecordsComplete(init, validSections, ds, c, s, i);
    } else {
      assert c == last;
      FindDescriptionIsFirst(ds, CourseCode(c), i);
      var secs := CourseSections(validSections, c.id);
      CourseSectionMember(validSections, c.id, s);
      var k :| 0 <= k < |secs| && secs[k] == s;
      assert SectionRecords(c, ds[i], secs)[k] == MakeRecord(c, ds[i], s);
    }
  }

  /** Every output record comes from a kept course, one of its kept sections and its first matching description. */
  lemma JoinedSound(courses: seq<Course>, sections: seq<Section>, ds: seq<CourseDescription>, r: VectorizedCourse)
    requires r in Joined(courses, sections, ds)
    ensures exists c, s, i :: JoinTriple(courses, sections, ds, c, s, i) && r == MakeRecord(c, ds[i], s)
  {
    var valid := ValidSections(sections);
    var kept := ValidCourses(courses, valid);
    AllRecordsSound(kept, valid, ds, r);
    var c, s, i :| c in kept && s in valid && LinksTo(s, c.id)
      && FirstMatch(ds, CourseCode(c), i) && r == MakeRecord(c, ds[i], s);
    ValidCourseMember(courses, valid, c);
    ValidSectionMember(sections, s);
    assert JoinTriple(courses, sections, ds, c, s, i);
  }

  /** Every kept course with a description yields a record for each of its kept sections. */
  lemma JoinedComplete(courses: seq<Course>, sections: seq<Section>, ds: seq<CourseDescription>,
                       c: Course, s: Section, i: int)
    requires JoinTriple(courses, sections, ds, c, s, i)
    ensures MakeRecord(c, ds[i], s) in Joined(courses, sections, ds)
  {
    var valid := ValidSections(sections);
    var kept := ValidCourses(courses, valid);
    ValidCourseMember(courses, valid, c);
    ValidSectionMember(sections, s);
    AllRecordsComplete(kept, valid, ds, c, s, i);
  }

  /**
   * The fields of every emitted record: the composite id, the composed code
   * (top level and metadata agree), the title with its course-name fallback
   * (top level and metadata agree), the description's text and units, and the
   * section's schedule fields copied unchanged.
   */
  lemma JoinedRecordFields(courses: seq<Course>, sections: seq<Section>, ds: seq<CourseDescription>, r: VectorizedCourse)
    requires r in Joined(courses, sections, ds)
    ensures r.code == r.metadata.code
    ensures r.title == r.metadata.title
    ensures exists c, s, i :: (JoinTriple(courses, sections, ds, c, s, i)
      && r.id == ds[i].id + "-" + s.id
      && r.code == CourseCode(c)
      && r.title == Or(ds[i].title, c.courseName)
      && r.description == ds[i].description && r.prerequisites == ds[i].prerequisites
      && r.metadata.units == ds[i].units
      && r.metadata.department == c.subjectCode && r.metadata.courseNumber == c.courseNumber
      && r.metadata.instructor == s.instructor && r.metadata.time == s.time
      && r.metadata.building == s.building && r.metadata.room == s.room && r.metadata.days == s.days
      && r.metadata.availableSeats == s.availableSeats && r.metadata.seatLimit == s.seatLimit)
  {
    JoinedSound(courses, sections, ds, r);
  }
}
