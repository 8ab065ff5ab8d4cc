# Course catalogue vectorizer — a Dafny model

The program reads three tables from a spreadsheet database: courses, sections
and course descriptions. It joins them into one record per lecture section of
each non-lab course, uploads those records to a vector index in batches of 100,
and prints search results from that index. This project models the pure core
of that pipeline in Dafny and proves what it guarantees:

- `records.dfy` (`Records`): flattening a table row into `{ id, ...fields }`.
- `types.dfy` (`Types`): the record shapes of `src/types.ts`. Fields the code
  tests for absence (`Building`, `Course Name`, the description's `title`, its
  `prerequisites`) are `Option`s. `undefined` is `None`.
- `js_text.dfy` (`JsText`): the JavaScript string semantics the code relies on.
  This covers truthiness, `a || b`, template literals rendering `undefined`,
  ASCII `toLowerCase` and `includes`.
- `seqs.dfy` (`Seqs`): `Array.prototype.filter` and a flat-map, with their
  order and membership facts.
- `join.dfy` (`Join`): `fetchAndFilterData`. It contains:
  - the section filter (lectures not in an RCLAS building);
  - the course filter (has a kept section, and the name is not a lab);
  - the description lookup by `"<Subject Code> <Course Number>"`;
  - the nested push loop. This is an imperative method proved equal to the
    functional specification `Joined`.
- `upload.dfy` (`Upload`): `uploadToPinecone`. It covers:
  - the embedding text and metadata merge of each record;
  - the batching loop, as an imperative method over a `VectorIndex` object that
    records every `upsert` call;
  - the progress counts the loop reports.
- `search.dfy` (`Search`): how `searchCourses` formats each match:
  - the rank;
  - the "No title" fallback;
  - the score default of 0;
  - the 200-character description preview;
  - the optional prerequisites.
- `scenarios.dfy` (`Scenarios`): concrete catalogues through the join. One
  course is kept. A lab course, a course whose only lecture is in RCLAS and a
  course with only a non-lecture section are each dropped. One record ends up
  without a title.

The embedding service is a parameter `embed: string -> seq<real>`. The vector
index is a log of the batches it was sent.

The code does not guarantee that an uploaded record has a title. `description.title || course["Course Name"]` gives `undefined` when the description title is empty and the course has no name (`Scenarios.UntitledRecord`). The embedding text then contains the word "undefined". Search output still shows "No title" in that case (`Search.FormatMatch` proves the displayed title is never empty). This is not a coding error, so it gets no correction here.

## Model

| member | source | states |
|---|---|---|
| Records.Minified | src/index.ts:29-34 | the flattened row has exactly the row's field names plus "id"; every field keeps its value; the row id is used only when no field is called "id" |
| Records.MinifiedRecords | src/index.ts:36-38 | one flattened row per row, in order |
| Records.MinifiedRoundTrip | src/index.ts:29-34 | a row without an "id" field is recovered from its flattened form (the id, and the fields without "id") |
| Records.FieldIdShadowsRecordId | src/index.ts:29-34 | a field named "id" overrides the row id, because the spread comes last |
| Records.MinifiedRecordsKeepRows | src/index.ts:36-38 | for rows without an "id" field, each flattened row carries its own row's id and gives back exactly that row's fields |
| JsText.Or | src/index.ts:106 | `a \|\| b` is truthy iff either side is; it is `a` when `a` is truthy and `b` otherwise |
| JsText.OrElse | src/index.ts:174 | `a \|\| fallback` is `a`'s text when truthy and the fallback otherwise; it is never empty with a non-empty fallback |
| JsText.Truthy | src/index.ts:106 | JavaScript truthiness of an optional string: present and non-empty (see JsText.Or, Join.SectionKeptIff) |
| JsText.Interpolate | src/index.ts:165 | `${x}` renders a missing value as "undefined" (see Upload.EmbeddingText) |
| JsText.Contains | src/index.ts:68-69 | `includes`: the needle occurs at some position (see JsText.ContainsLower, JsText.MissingFirstCharNotContains, Join.SectionKeptIff) |
| JsText.Lower | src/index.ts:68 | lower-casing keeps the length and maps each character independently |
| JsText.LaboratoryContainsLab | src/index.ts:68-69 | a name containing "laboratory" already contains "lab", so the second test never changes the verdict |
| JsText.ContainsLower | src/index.ts:68 | a substring survives lower-casing of both sides |
| JsText.MissingFirstCharNotContains | src/index.ts:68 | a string lacking the needle's first character does not contain it |
| Seqs.Filter | src/index.ts:57-59 | the filtered list is no longer than the input |
| Seqs.FilterMembership | src/index.ts:57-59 | an element is in the filtered list iff it is in the input and passes the test |
| Seqs.KeptIndices | src/index.ts:57-59 | the positions of the passing elements are strictly increasing, in range, and cover exactly the passing positions |
| Seqs.FilterKeepsOrder | src/index.ts:57-59 | the filtered list is the passing elements read at those positions, so input order is kept |
| Seqs.FlatMapPrefixSnoc | src/index.ts:83-125 | one more loop iteration appends exactly that element's contribution |
| Seqs.FlatMapAppend | src/index.ts:83-125 | the contributions of a concatenation are the contributions of its parts, in order |
| Join.SectionKeptIff | src/index.ts:57-59 | a section is kept iff it is a "Lecture" and its building is missing, empty, or does not contain "RCLAS" |
| Join.IsValidSection | src/index.ts:58 | the section test (see Join.SectionKeptIff) |
| Join.ValidSectionMember | src/index.ts:57-59 | a section is in the filtered list iff it is in the table and passes the section test |
| Join.ValidSections | src/index.ts:57-59 | `allSections.filter(...)` with the section test (see Join.ValidSectionMember, Join.SectionKeptIff, Seqs.FilterKeepsOrder) |
| Join.LinkedCourseId | src/index.ts:65 | the course id a link names: the link itself, or the first entry of a list (see Join.ListLinkUsesFirst) |
| Join.ListLinkUsesFirst | src/index.ts:65 | a list course link names its first entry; an empty list links to nothing |
| Join.LinksTo | src/index.ts:66 | the section's linked course id equals the course id (see Join.ListLinkUsesFirst) |
| Join.CourseKeptIff | src/index.ts:63-71 | a course is kept iff some kept section links to it and its lower-cased name (if any) does not contain "lab" |
| Join.NotLab | src/index.ts:68-69 | the lab test, with a missing name counting as not a lab (see Join.CourseKeptIff, JsText.LaboratoryContainsLab) |
| Join.ValidCourseMember | src/index.ts:63-71 | a course is in the filtered list iff it is in the table and passes both course tests |
| Join.HasValidSection | src/index.ts:64-67 | `validSections.some(...)`: some kept section links to the course (see Join.CourseKeptIff) |
| Join.IsValidCourse | src/index.ts:70 | a kept section links to the course and it is not a lab (see Join.CourseKeptIff) |
| Join.ValidCourses | src/index.ts:63-71 | `courses.filter(...)` with the course test (see Join.ValidCourseMember, Join.CourseKeptIff) |
| Join.CourseCode | src/index.ts:84 | `"<Subject Code> <Course Number>"` (see Join.JoinedRecordFields, Scenarios.OneCourseOneRecord) |
| Join.FindDescription | src/index.ts:85 | the lookup fails iff no description has the course code, and otherwise returns a description with that code that has none before it |
| Join.FindDescriptionIsFirst | src/index.ts:85 | the lookup returns the first description with the code |
| Join.NoDescriptionNoRecords | src/index.ts:87-90 | a kept course without a description contributes no records |
| Join.CourseRecords | src/index.ts:84-124 | one outer iteration: nothing when the lookup fails, else the course's section records (see Join.NoDescriptionNoRecords, Join.AllRecordsSound, Join.AllRecordsComplete) |
| Join.CourseSections | src/index.ts:97-100 | the kept sections linked to the course, in order (see Join.CourseSectionMember) |
| Join.CourseSectionMember | src/index.ts:97-100 | a section is among the course's sections iff it is kept and links to the course |
| Join.MakeRecord | src/index.ts:103-123 | the pushed record (see Join.JoinedRecordFields, Join.CourseRecordIdsDistinct) |
| Join.SectionRecords | src/index.ts:102-124 | one record per kept section of the course, in section order |
| Join.PushSectionRecords | src/index.ts:102-124 | the inner loop appends exactly the course's section records to what was collected |
| Join.FetchAndFilterData | src/index.ts:81-125 | the nested loop produces exactly `Joined`, the kept courses' section records in course order |
| Join.Joined | src/index.ts:57-125 | the whole join as a function of the three tables (see Join.JoinedSound, Join.JoinedComplete, Join.JoinedLength, Join.JoinedRecordFields) |
| Join.AllRecordsLength | src/index.ts:83-125 | the output length is the sum, over the kept courses that have a description, of their kept section counts |
| Join.AllRecords | src/index.ts:83-125 | the whole outer loop over the kept courses (see Join.AllRecordsLength, Join.AllRecordsAppend, Join.AllRecordsSound, Join.AllRecordsComplete) |
| Join.JoinedLength | src/index.ts:57-125 | the same count, stated on the three input tables |
| Join.AllRecordsAppend | src/index.ts:83-125 | records of earlier courses come before those of later courses |
| Join.CourseRecordIdsDistinct | src/index.ts:104 | distinct section ids give distinct record ids within a course |
| Join.AllRecordsSound | src/index.ts:83-124 | every record comes from a kept course, a kept section linked to it, and its first matching description |
| Join.AllRecordsComplete | src/index.ts:83-124 | every such course, section and description triple yields its record |
| Join.JoinedSound | src/index.ts:57-124 | every output record comes from a kept course, one of its kept sections and its first matching description |
| Join.JoinedComplete | src/index.ts:57-124 | every kept course with a description yields a record for each of its kept sections |
| Join.JoinedRecordFields | src/index.ts:103-122 | each record's id is `<description id>-<section id>`; its code and title agree between top level and metadata; the title is the description title or else the course name; the schedule fields are the section's |
| Upload.EmbeddingText | src/index.ts:165 | the embedding text is the code, title, description and prerequisites joined with five separator characters |
| Upload.EmbeddingTextShape | src/index.ts:165 | the text starts with "<code>: ", contains the description, and ends with the prerequisites or with a space when there are none |
| Upload.UploadMetadataOf | src/index.ts:169-175 | the merged metadata (see Upload.JoinedUploadMetadata) |
| Upload.ToVector | src/index.ts:180-184 | the vector for one record: its id, the embedding of its text, its merged metadata (see Upload.BatchVectors, Upload.UpsertCallAt) |
| Upload.BatchVectors | src/index.ts:162-185 | one vector per record of the batch, in order, carrying the record id, the embedding of its text and the merged metadata |
| Upload.JoinedUploadMetadata | src/index.ts:169-175 | the merged metadata keeps the record's metadata; the code and title overrides agree with it; the prerequisites are "" exactly when missing or empty |
| Upload.Batches | src/index.ts:160-161 | the slices the loop sends (see Upload.BatchAt, Upload.BatchSizes, Upload.BatchesCover) |
| Upload.Progress | src/index.ts:189 | the counts the loop reports (see Upload.ProgressCounts) |
| Upload.BatchAt | src/index.ts:160-161 | batch k exists iff k*100 is below the length, and it is the slice from k*100 to min(k*100+100, length) |
| Upload.BatchSizes | src/index.ts:160-161 | every batch is non-empty and holds at most the batch size |
| Upload.BatchesCover | src/index.ts:160-161 | concatenating the batches gives back the whole record list |
| Upload.UploadedSoFar | src/index.ts:160-189 | after batch k, exactly the first min((k+1)*100, length) records have been sent |
| Upload.ProgressAt | src/index.ts:189 | the count printed after batch k is the number of records sent so far, k*100 plus the batch's size |
| Upload.ProgressCounts | src/index.ts:189 | one progress count per batch; count k is the number of records sent so far; the last is the total |
| Upload.VectorBatchesAt | src/index.ts:160-188 | one upsert per batch, carrying that batch's vectors |
| Upload.VectorBatches | src/index.ts:160-188 | the sequence of `index.upsert` calls (see Upload.VectorBatchesAt, Upload.UpsertCallAt) |
| Upload.UpsertCallAt | src/index.ts:161-188 | the j-th vector of upsert call k is record k*100+j turned into a vector |
| Upload.VectorIndex.Upsert | src/index.ts:188 | an upsert appends its vectors to the index's call log |
| Upload.UploadToPinecone | src/index.ts:159-190 | the loop sends exactly the batches' vectors in order and reports exactly the progress counts |
| Search.Preview | src/index.ts:243 | the preview is the first min(length, 200) characters, counted as Unicode scalar values |
| Search.FormatMatch | src/index.ts:236-247 | rank is position plus one; the title is never empty; a missing score shows as 0 and a present one as itself; a description preview appears iff the description is non-empty and is its first 200 characters; prerequisites appear iff non-empty |
| Search.FormatResults | src/index.ts:235 | one entry per match, in result order |
| Search.ResultRanks | src/index.ts:235-238 | displayed ranks run 1, 2, 3, ... and every displayed title is non-empty |
| Search.UploadedRecordDisplay | src/index.ts:236-246 | an uploaded record is displayed with its code and its title or "No title"; its description is shown iff non-empty, and whole when short; its prerequisites are shown iff present; its days, time, building, room, instructor and seat counts are shown unchanged; its score is the index's, or 0 when missing |
| Scenarios.OneCourseOneRecord | src/index.ts:57-125 | a CSE 101 lecture with a description yields exactly one record, "d1-s1", coded "CSE 101" and titled from the description |
| Scenarios.LabCourseExcluded | src/index.ts:68-70 | "Intro to Biology Lab" yields nothing, even with a lecture and a description |
| Scenarios.RclasSectionExcluded | src/index.ts:58 | a lecture in "RCLAS 2" is dropped, and its course with it |
| Scenarios.NonLectureExcluded | src/index.ts:58 | a course with only a non-lecture section yields nothing |
| Scenarios.UntitledRecord | src/index.ts:106 | an empty description title with a missing course name leaves the record untitled |

## Left out

- Reading the three tables, the environment configuration and the API keys. The tables are parameters.
- The embedding service is the parameter `embed`. Its failures and retries are not modelled.
- The vector index is a log of upsert calls. Overwriting an existing vector that has the same id is not modelled.
- `Promise.all` inside a batch is not modelled. The vectors are formed in batch order, which is the order `Promise.all` returns them in.
- Console logging is not modelled, including the debug dumps and `score.toFixed(3)`. Scores are `real`. `Search.ResultEntry` holds the values shown for a match, not the printed lines: the labels and the `...` that line 243 of `src/index.ts` appends after every preview (even a whole short description) are not modelled.
- `toLowerCase` is modelled on ASCII letters only. Full Unicode case mapping is not.
- Search.Preview: strings are sequences of Unicode scalar values, not UTF-16 code units. For text outside the Basic Multilingual Plane, JavaScript lengths and `slice(0, 200)` count differently and can split a surrogate pair; the model does not capture that.
- `searchCourses`' query itself is not modelled: the query embedding, `topK: 5`, the metadata filter and `index.query`. Only the formatting of the returned matches is.
- The `try`/`catch` around the pipeline and `main` are not modelled.
- The TypeScript casts from flattened rows to typed records are not checked by the code. The model assumes every non-optional field is present and has its declared type.
- Join.FetchAndFilterData: its inner loop over a course's sections is the separate method `Join.PushSectionRecords`. The behaviour is unchanged.
- Upload.UploadToPinecone: the reported progress `i + vectors.length` is returned as a list of counts instead of being printed.
