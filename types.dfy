/**
 * The record shapes of the course catalogue (src/types.ts). A field that the
 * pipeline tests for absence is an `Option`; every other field is taken as
 * present, as the interfaces declare.
 */
module Types {
  import opened JsText

  /** A row of the courses table. */
  datatype Course = Course(
    id: string,
    courseNumber: string,
    subjectCode: string,
    courseName: Option<string>,
    units: string,
    sections: seq<string>)

  /** "Course Link" is either one linked record id or a list of them. */
  datatype CourseLink = Single(id: string) | Many(ids: seq<string>)

  /** A row of the sections table. */
  datatype Section = Section(
    id: string,
    subjectCode: string,
    courseLink: CourseLink,
    meetingType: string,
    time: string,
    building: Option<string>,
    room: string,
    instructor: string,
    availableSeats: int,
    seatLimit: int,
    days: string,
    sectionId: string)

  /** A row of the descriptions table, matched to a course by its `code`. */
  datatype CourseDescription = CourseDescription(
    id: string,
    code: string,
    title: Option<string>,
    units: int,
    description: string,
    prerequisites: Option<string>)

  /** The `metadata` object of a `VectorizedCourse`. */
  datatype CourseMetadata = CourseMetadata(
    units: int,
    department: string,
    courseNumber: string,
    instructor: string,
    time: string,
    building: Option<string>,
    room: string,
    days: string,
    availableSeats: int,
    seatLimit: int,
    title: Option<string>,
    code: string)

  /** One (course, lecture section) pair, prepared for embedding and upload. */
  datatype VectorizedCourse = VectorizedCourse(
    id: string,
    code: string,
    title: Option<string>,
    description: string,
    prerequisites: Option<string>,
    metadata: CourseMetadata)
}
