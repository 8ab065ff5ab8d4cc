/**
 * The upload step of the sync run (`uploadToPinecone` in src/index.ts): split
 * the joined records into batches of 100, turn every record of a batch into a
 * vector (its embedding text, the embedding, and the merged metadata), upsert
 * the batch, and report the running count.
 *
 * The embedding service is a function parameter and the vector index is a
 * class that records the batches upserted into it.
 */
module Upload {
  import opened JsText
  import opened Types
  import Join

  const BATCH_SIZE := 100

  type Embedding = seq<real>

  /** The metadata stored with each vector: the record's metadata with the top-level fields laid over it. */
  datatype UploadMetadata = UploadMetadata(
    units: int,
    department: string,
    courseNumber: string,
    instructor: string,
    time: string,
    building: Option<string>,
    room: string,
    days: string,
    availableSeats: int,
    seatLimit: int,
    title: Option<string>,
    code: string,
    description: string,
    prerequisites: string)

  /** One entry of an upsert call. */
  datatype Vector = Vector(id: string, values: Embedding, metadata: UploadMetadata)

  function Min(a: int, b: int): int {
    if a <= b then a else b
  }

  // ---------------------------------------------------------------------------
  // Shaping one record

  /** `${code}: ${title}. ${description} ${prerequisites || ''}`. */
  function EmbeddingText(c: VectorizedCourse): (text: string)
    ensures |text| == |c.code| + |Interpolate(c.title)| + |c.description| + |OrElse(c.prerequisites, "")| + 5
  {
    c.code + ": " + Interpolate(c.title) + ". " + c.description + " " + OrElse(c.prerequisites, "")
  }

  /** `{...course.metadata, code, title, description, prerequisites: prerequisites || ''}`. */
  function UploadMetadataOf(c: VectorizedCourse): UploadMetadata {
    var m := c.metadata;
    UploadMetadata(
      m.units, m.department, m.courseNumber, m.instructor, m.time, m.building, m.room, m.days,
      m.availableSeats, m.seatLimit, c.title, c.code, c.description, OrElse(c.prerequisites, ""))
  }

  function ToVector(c: VectorizedCourse, embed: string -> Embedding): Vector {
    Vector(c.id, embed(EmbeddingText(c)), UploadMetadataOf(c))
  }

  /** `batch.map(...)`: one vector per record, in batch order. */
  function BatchVectors(batch: seq<VectorizedCourse>, embed: string -> Embedding): (vs: seq<Vector>)
    ensures |vs| == |batch|
    ensures forall k :: 0 <= k < |batch| ==> vs[k] == ToVector(batch[k], embed)
  {
    seq(|batch|, k requires 0 <= k < |batch| => ToVector(batch[k], embed))
  }

  /**
   * The embedding text opens with the course code, carries the description,
   * and ends with the prerequisites, or with a bare space when there are none.
   */
  lemma EmbeddingTextShape(c: VectorizedCourse)
    ensures var text := EmbeddingText(c);
      && text[..|c.code| + 2] == c.code + ": "
      && Contains(text, c.description)
      && (Truthy(c.prerequisites) ==> text[|text| - |c.prerequisites.value|..] == c.prerequisites.value)
      && (!Truthy(c.prerequisites) ==> text[|text| - 1] == ' ')
  {
    var head := c.code + ": " + Interpolate(c.title) + ". ";
    var text := EmbeddingText(c);
    assert text == head + c.description + (" " + OrElse(c.prerequisites, ""));
    assert text[|head|..|head| + |c.description|] == c.description;
    assert OccursAt(text, c.description, |head|);
  }

  /**
   * The metadata merge keeps the record's own metadata, except that the
   * prerequisites default to "". For a joined record the overridden code and
   * title agree with the ones already in its metadata.
   */
  lemma JoinedUploadMetadata(courses: seq<Course>, sections: seq<Section>, ds: seq<CourseDescription>,
                             r: VectorizedCourse)
    requires r in Join.Joined(courses, sections, ds)
    ensures var m := UploadMetadataOf(r);
      && m.code == r.metadata.code && m.title == r.metadata.title
      && m.description == r.description
      && (m.prerequisites == "" <==> !Truthy(r.prerequisites))
      && (Truthy(r.prerequisites) ==> m.prerequisites == r.prerequisites.value)
      && m.units == r.metadata.units && m.department == r.metadata.department
      && m.courseNumber == r.metadata.courseNumber && m.instructor == r.metadata.instructor
      && m.time == r.metadata.time && m.building == r.metadata.building && m.room == r.metadata.room
      && m.days == r.metadata.days && m.availableSeats == r.metadata.availableSeats
      && m.seatLimit == r.metadata.seatLimit
  {
    Join.JoinedRecordFields(courses, sections, ds, r);
  }

  // ---------------------------------------------------------------------------
  // Batching

  /** `records.slice(i, i + size)` for i = start, start + size, ... below the length. */
  function BatchesFrom<T>(s: seq<T>, start: nat, size: nat): seq<seq<T>>
    requires size > 0
    decreases |s| - start
  {
    if start >= |s| then []
    else [s[start..Min(start + size, |s|)]] + BatchesFrom(s, start + size, size)
  }

  function Batches<T>(s: seq<T>, size: nat): seq<seq<T>>
    requires size > 0
  {
    BatchesFrom(s, 0, size)
  }

  /** The counts reported after each batch from `start` on: `i + vectors.length`. */
  function ProgressFrom(n: nat, start: nat, size: nat): seq<nat>
    requires size > 0
    decreases n - start
  {
    if start >= n then []
    else [Min(start + size, n)] + ProgressFrom(n, start + size, size)
  }

  function Progress(n: nat, size: nat): seq<nat>
    requires size > 0
  {
    ProgressFrom(n, 0, size)
  }

  function Concat<T>(bs: seq<seq<T>>): seq<T> {
    if bs == [] then [] else bs[0] + Concat(bs[1..])
  }

  /**
   * The batches start at 0, size, 2 * size, ... below the length, and batch k
   * is the slice from k * size up to (k + 1) * size, cut at the length.
   */
  lemma {:induction false} BatchesFromAt<T>(s: seq<T>, start: nat, size: nat, k: nat)
    requires size > 0
    ensures k < |BatchesFrom(s, start, size)| <==> start + k * size < |s|
    ensures k < |BatchesFrom(s, start, size)| ==>
      BatchesFrom(s, start, size)[k] == s[start + k * size..Min(start + k * size + size, |s|)]
    decreases k
  {
    if start < |s| && k > 0 {
      var rest := BatchesFrom(s, start + size, size);
      assert BatchesFrom(s, start, size) == [s[start..Min(start + size, |s|)]] + rest;
      BatchesFromAt(s, start + size, size, k - 1);
      assert start + size + (k - 1) * size == start + k * size;
      if k - 1 < |rest| {
        assert BatchesFrom(s, start, size)[k] == rest[k - 1];
      }
    }
  }

  lemma BatchAt<T>(s: seq<T>, size: nat, k: nat)
    requires size > 0
    ensures k < |Batches(s, size)| <==> k * size < |s|
    ensures k < |Batches(s, size)| ==> Batches(s, size)[k] == s[k * size..Min(k * size + size, |s|)]
  {
    BatchesFromAt(s, 0, size, k);
  }

  /** Every batch is non-empty and holds at most `size` records. */
  lemma BatchSizes<T>(s: seq<T>, size: nat, k: nat)
    requires size > 0 && k < |Batches(s, size)|
    ensures 0 < |Batches(s, size)[k]| <= size
  {
    BatchAt(s, size, k);
  }

  /** The batches together are the records, each once and in order. */
  lemma {:induction false} BatchesFromCover<T>(s: seq<T>, start: nat, size: nat)
    requires size > 0
    ensures Concat(BatchesFrom(s, start, size)) == s[Min(start, |s|)..]
    decreases |s| - start
  {
    if start < |s| {
      var rest := BatchesFrom(s, start + size, size);
      var b := s[start..Min(start + size, |s|)];
      assert ([b] + rest)[1..] == rest;
      BatchesFromCover(s, start + size, size);
      assert s[start..] == b + s[Min(start + size, |s|)..];
    }
  }

  lemma BatchesCover<T>(s: seq<T>, size: nat)
    requires size > 0
    ensures Concat(Batches(s, size)) == s
  {
    BatchesFromCover(s, 0, size);
  }

  lemma {:induction false} ConcatSnoc<T>(bs: seq<seq<T>>, b: seq<T>)
    ensures Concat(bs + [b]) == Concat(bs) + b
  {
    if bs != [] {
      assert (bs + [b])[1..] == bs[1..] + [b];
      ConcatSnoc(bs[1..], b);
    }
  }

  /** After batch k, the records uploaded so far are exactly the first min((k + 1) * size, n). */
  lemma {:induction false} UploadedSoFar<T>(s: seq<T>, size: nat, k: nat)
    requires size > 0 && k < |Batches(s, size)|
    ensures Concat(Batches(s, size)[..k + 1]) == s[..Min(k * size + size, |s|)]
  {
    var bs := Batches(s, size);
    BatchAt(s, size, k);
    assert bs[..k + 1] == bs[..k] + [bs[k]];
    ConcatSnoc(bs[..k], bs[k]);
    if k == 0 {
      assert bs[..0] == [];
    } else {
      UploadedSoFar(s, size, k - 1);
      assert (k - 1) * size + size == k * size;
    }
  }

  lemma {:induction false} ProgressFromAt(n: nat, start: nat, size: nat, k: nat)
    requires size > 0
    ensures k < |ProgressFrom(n, start, size)| <==> start + k * size < n
    ensures k < |ProgressFrom(n, start, size)| ==> ProgressFrom(n, start, size)[k] == Min(start + k * size + size, n)
    decreases k
  {
    if start < n && k > 0 {
      ProgressFromAt(n, start + size, size, k - 1);
      assert start + size + (k - 1) * size == start + k * size;
    }
  }

  /**
   * One count is reported per batch; the k-th is the number of records
   * uploaded after batch k, and the last one is the total.
   */
  lemma {:induction false} ProgressFromLength<T>(s: seq<T>, start: nat, size: nat)
    requires size > 0
    ensures |ProgressFrom(|s|, start, size)| == |BatchesFrom(s, start, size)|
    decreases |s| - start
  {
    if start < |s| {
      ProgressFromLength(s, start + size, size);
    }
  }

  /** The count reported after batch k is the number of records uploaded so far. */
  lemma ProgressAt<T>(s: seq<T>, size: nat, k: nat)
    requires size > 0 && k < |Batches(s, size)|
    ensures k < |Progress(|s|, size)|
    ensures Progress(|s|, size)[k] == |Concat(Batches(s, size)[..k + 1])| == k * size + |Batches(s, size)[k]|
  {
    var start := k * size;
    BatchAt(s, size, k);
    ProgressFromAt(|s|, 0, size, k);
    UploadedSoFar(s, size, k);
    assert 0 + k * size + size == start + size;
    assert |Batches(s, size)[k]| == Min(start + size, |s|) - start;
  }

  /** The count reported after the last batch is the total. */
  lemma ProgressLast<T>(s: seq<T>, size: nat)
    requires size > 0 && |s| > 0
    ensures |Progress(|s|, size)| > 0 && Progress(|s|, size)[|Progress(|s|, size)| - 1] == |s|
  {
    ProgressFromLength(s, 0, size);
    BatchAt(s, size, 0);
    var last := |Progress(|s|, size)| - 1;
    BatchAt(s, size, last + 1);
    ProgressFromAt(|s|, 0, size, last);
    assert (last + 1) * size == last * size + size;
  }

  lemma ProgressCounts<T>(s: seq<T>, size: nat)
    requires size > 0
    ensures |Progress(|s|, size)| == |Batches(s, size)|
    ensures forall k :: 0 <= k < |Batches(s, size)| ==>
      Progress(|s|, size)[k] == |Concat(Batches(s, size)[..k + 1])| == k * size + |Batches(s, size)[k]|
    ensures |s| > 0 ==> Progress(|s|, size)[|Progress(|s|, size)| - 1] == |s|
  {
    ProgressFromLength(s, 0, size);
    forall k | 0 <= k < |Batches(s, size)|
      ensures Progress(|s|, size)[k] == |Concat(Batches(s, size)[..k + 1])| == k * size + |Batches(s, size)[k]|
    {
      ProgressAt(s, size, k);
    }
    if |s| > 0 {
      ProgressLast(s, size);
    }
  }

  // ---------------------------------------------------------------------------
  // The vector index and the upload loop

  /** The vector index, seen through the upsert calls it has received. */
  class VectorIndex {
    var upserts: seq<seq<Vector>>

    constructor ()
      ensures upserts == []
    {
      upserts := [];
    }

    /** `index.upsert(vectors)`. */
    method Upsert(vectors: seq<Vector>)
      modifies this
      ensures upserts == old(upserts) + [vectors]
    {
      upserts := upserts + [vectors];
    }
  }

  /** The upsert calls the upload makes: one per batch, in batch order. */
  function VectorBatches(bs: seq<seq<VectorizedCourse>>, embed: string -> Embedding): seq<seq<Vector>> {
    if bs == [] then [] else [BatchVectors(bs[0], embed)] + VectorBatches(bs[1..], embed)
  }

  lemma {:induction false} VectorBatchesAt(bs: seq<seq<VectorizedCourse>>, embed: string -> Embedding, k: nat)
    requires k < |bs|
    ensures |VectorBatches(bs, embed)| == |bs|
    ensures VectorBatches(bs, embed)[k] == BatchVectors(bs[k], embed)
  {
    if k > 0 {
      VectorBatchesAt(bs[1..], embed, k - 1);
    } else if |bs| > 1 {
      VectorBatchesAt(bs[1..], embed, 0);
    }
  }

  /**
   * Upsert call k carries, at position j, the vector of record k * 100 + j:
   * its id, the embedding of its text and its merged metadata.
   */
  lemma UpsertCallAt(s: seq<VectorizedCourse>, embed: string -> Embedding, k: nat, j: nat)
    requires k < |Batches(s, BATCH_SIZE)| && j < |Batches(s, BATCH_SIZE)[k]|
    ensures var calls := VectorBatches(Batches(s, BATCH_SIZE), embed);
      && |calls| == |Batches(s, BATCH_SIZE)|
      && j < |calls[k]| && k * BATCH_SIZE + j < |s|
      && calls[k][j] == Vector(s[k * BATCH_SIZE + j].id, embed(EmbeddingText(s[k * BATCH_SIZE + j])),
                               UploadMetadataOf(s[k * BATCH_SIZE + j]))
  {
    BatchAt(s, BATCH_SIZE, k);
    VectorBatchesAt(Batches(s, BATCH_SIZE), embed, k);
  }

  lemma VectorBatchesStep(s: seq<VectorizedCourse>, i: nat, size: nat, embed: string -> Embedding)
    requires size > 0 && i < |s|
    ensures VectorBatches(BatchesFrom(s, i, size), embed)
      == [BatchVectors(s[i..Min(i + size, |s|)], embed)] + VectorBatches(BatchesFrom(s, i + size, size), embed)
    ensures ProgressFrom(|s|, i, size) == [Min(i + size, |s|)] + ProgressFrom(|s|, i + size, size)
  {
    var batch, rest := s[i..Min(i + size, |s|)], BatchesFrom(s, i + size, size);
    assert ([batch] + rest)[1..] == rest;
  }

  /**
   * `uploadToPinecone`: for i = 0, 100, 200, ... below the number of records,
   * embed and upsert `records.slice(i, i + 100)`, then report `i + vectors.length`.
   */
  method UploadToPinecone(index: VectorIndex, vectorizedCourses: seq<VectorizedCourse>, embed: string -> Embedding)
    returns (progress: seq<nat>)
    modifies index
    ensures index.upserts == old(index.upserts) + VectorBatches(Batches(vectorizedCourses, BATCH_SIZE), embed)
    ensures progress == Progress(|vectorizedCourses|, BATCH_SIZE)
  {
    var n := |vectorizedCourses|;
    var i := 0;
    progress := [];
    while i < n
      invariant index.upserts + VectorBatches(BatchesFrom(vectorizedCourses, i, BATCH_SIZE), embed)
        == old(index.upserts) + VectorBatches(Batches(vectorizedCourses, BATCH_SIZE), embed)
      invariant progress + ProgressFrom(n, i, BATCH_SIZE) == Progress(n, BATCH_SIZE)
      decreases n - i
    {
      var batch := vectorizedCourses[i..Min(i + BATCH_SIZE, n)];
      var vectors := BatchVectors(batch, embed);
      VectorBatchesStep(vectorizedCourses, i, BATCH_SIZE, embed);
      index.Upsert(vectors);
      progress := progress + [i + |vectors|];
      i := i + BATCH_SIZE;
    }
  }
}
