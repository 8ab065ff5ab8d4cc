/**
 * Small concrete catalogues run through the join: one course that makes it
 * through, and one course excluded by each filter.
 */
module Scenarios {
  import opened JsText
  import opened Types
  import opened Join
  import Seqs

  const CSE101 := Course("c1", "101", "CSE", Some("Intro to Computer Science"), "4", ["s1"])
  const CSE101_LECTURE := Section("s1", "CSE", Many(["c1"]), "Lecture", "9:00a-9:50a", Some("ENG"), "101",
                                  "Smith", 30, 40, "MWF", "A00")
  const CSE101_DESCRIPTION := CourseDescription("d1", "CSE 101", Some("Introduction to Computer Science"), 4,
                                                "Basics of programming.", None)

  /** "Intro to Computer Science" has no 'l' at all, so it is not a lab. */
  lemma Cse101NotLab()
    ensures NotLab(CSE101)
  {
    var name := CSE101.courseName.value;
    assert 'l' !in name && 'L' !in name;
    forall i | 0 <= i < |name|
      ensures Lower(name)[i] != 'l'
    {
      assert name[i] in name;
    }
    MissingFirstCharNotContains(Lower(name), "lab");
    MissingFirstCharNotContains(Lower(name), "laboratory");
  }

  /** The course code of CSE101 is "CSE 101". */
  lemma Cse101Code()
    ensures CourseCode(CSE101) == "CSE 101"
  {
    assert "CSE" + " " + "101" == "CSE 101";
  }

  /** The lecture passes the section filter, so it is the only kept section. */
  lemma Cse101LectureKept()
    ensures ValidSections([CSE101_LECTURE]) == [CSE101_LECTURE]
  {
    assert [CSE101_LECTURE][..0] == [];
    assert !Contains("ENG", "RCLAS");
    assert IsValidSection(CSE101_LECTURE);
  }

  /** The lecture links to CSE101, so it is the course's only section. */
  lemma Cse101Sections()
    ensures CourseSections([CSE101_LECTURE], CSE101.id) == [CSE101_LECTURE]
  {
    assert [CSE101_LECTURE][..0] == [];
    assert LinksTo(CSE101_LECTURE, CSE101.id);
  }

  /** CSE101 has a kept section and is not a lab, so it is the only kept course. */
  lemma Cse101Kept()
    ensures ValidCourses([CSE101], [CSE101_LECTURE]) == [CSE101]
  {
    assert [CSE101][..0] == [];
    Cse101NotLab();
    assert LinksTo(CSE101_LECTURE, CSE101.id);
    assert HasValidSection(CSE101, [CSE101_LECTURE]) by {
      assert LinksTo([CSE101_LECTURE][0], CSE101.id);
    }
  }

  /** The fields of the one CSE 101 record. */
  lemma Cse101RecordFields()
    ensures var r := MakeRecord(CSE101, CSE101_DESCRIPTION, CSE101_LECTURE);
      && r.id == "d1-s1" && r.code == "CSE 101" && r.metadata.code == "CSE 101"
      && r.title == Some("Introduction to Computer Science") && r.metadata.days == "MWF"
  {
    Cse101Code();
    assert "d1" + "-" + "s1" == "d1-s1";
  }

  /**
   * One course with one lecture section and one description gives exactly one
   * record, titled from the description and coded "CSE 101".
   */
  lemma OneCourseOneRecord()
    ensures Joined([CSE101], [CSE101_LECTURE], [CSE101_DESCRIPTION])
      == [MakeRecord(CSE101, CSE101_DESCRIPTION, CSE101_LECTURE)]
    ensures var r := MakeRecord(CSE101, CSE101_DESCRIPTION, CSE101_LECTURE);
      && r.id == "d1-s1" && r.code == "CSE 101" && r.metadata.code == "CSE 101"
      && r.title == Some("Introduction to Computer Science") && r.metadata.days == "MWF"
  {
    var valid := [CSE101_LECTURE];
    var ds := [CSE101_DESCRIPTION];
    Cse101LectureKept();
    Cse101Kept();
    Cse101Code();
    Cse101Sections();
    Cse101RecordFields();
    FindDescriptionIsFirst(ds, CourseCode(CSE101), 0);
    var record := MakeRecord(CSE101, CSE101_DESCRIPTION, CSE101_LECTURE);
    assert SectionRecords(CSE101, CSE101_DESCRIPTION, valid) == [record];
    var recordsOf := CourseRecordsOf(valid, ds);
    assert recordsOf(CSE101) == [record];
    assert [CSE101][..0] == [];
    assert Seqs.FlatMap([CSE101], recordsOf) == Seqs.FlatMap([], recordsOf) + recordsOf(CSE101);
  }

  /** A course whose name contains "Lab" is excluded even with a valid lecture and a description. */
  lemma LabCourseExcluded()
    ensures var lab := CSE101.(courseName := Some("Intro to Biology Lab"));
      Joined([lab], [CSE101_LECTURE], [CSE101_DESCRIPTION]) == []
  {
    var lab := CSE101.(courseName := Some("Intro to Biology Lab"));
    var lower := Lower(lab.courseName.value);
    assert lower[17] == 'l' && lower[18] == 'a' && lower[19] == 'b';
    assert lower[17..20] == "lab";
    assert OccursAt(lower, "lab", 17);
    assert !NotLab(lab);
    var valid := ValidSections([CSE101_LECTURE]);
    assert ValidCourses([lab], valid) == [];
  }

  /** A lecture held in an RCLAS building is dropped, and with it its only course. */
  lemma RclasSectionExcluded()
    ensures var remote := CSE101_LECTURE.(building := Some("RCLAS 2"));
      Joined([CSE101], [remote], [CSE101_DESCRIPTION]) == []
  {
    var remote := CSE101_LECTURE.(building := Some("RCLAS 2"));
    assert remote.building.value[0..5] == "RCLAS";
    assert OccursAt(remote.building.value, "RCLAS", 0);
    assert !IsValidSection(remote);
    assert ValidSections([remote]) == [];
    assert !HasValidSection(CSE101, []);
    assert ValidCourses([CSE101], []) == [];
  }

  /** A course with only a non-lecture section is excluded even with a matching description. */
  lemma NonLectureExcluded()
    ensures var lab := CSE101_LECTURE.(meetingType := "Laboratory");
      Joined([CSE101], [lab], [CSE101_DESCRIPTION]) == []
  {
    var lab := CSE101_LECTURE.(meetingType := "Laboratory");
    assert ValidSections([lab]) == [];
    assert ValidCourses([CSE101], []) == [];
  }

  /**
   * The title fallback can still leave a record without a title: an empty
   * description title and a missing course name give `undefined`.
   */
  lemma UntitledRecord()
    ensures var nameless := CSE101.(courseName := None);
      var untitled := CSE101_DESCRIPTION.(title := Some(""));
      MakeRecord(nameless, untitled, CSE101_LECTURE).title == None
  {
  }
}
