/** `index_sections`: the section stream is sent to the search index in
    uploads of at most 1000 documents, in order. The search client is an
    abstract recorder of the batches it receives. */
module Batching {

  const BatchSize := 1000

  /** A search client as seen by `index_sections`: it only records the batches
      passed to `upload_documents`. */
  class SearchClient<T> {
    var uploads: seq<seq<T>>

    constructor ()
      ensures uploads == []
    {
      uploads := [];
    }

    method UploadDocuments(documents: seq<T>)
      modifies this
      ensures uploads == old(uploads) + [documents]
    {
      uploads := uploads + [documents];
    }
  }

  /** The batches `index_sections` uploads for `sections`: full batches of
      1000, then the remainder when it is not empty. */
  function Batches<T>(sections: seq<T>): (r: seq<seq<T>>)
    ensures forall k | 0 <= k < |r| :: 0 < |r[k]| <= BatchSize
    ensures forall k | 0 <= k < |r| - 1 :: |r[k]| == BatchSize
    decreases |sections|
  {
    if |sections| == 0 then []
    else if |sections| <= BatchSize then [sections]
    else
      var rest := Batches(sections[BatchSize..]);
      assert forall k | 1 <= k < 1 + |rest| :: ([sections[..BatchSize]] + rest)[k] == rest[k - 1];
      [sections[..BatchSize]] + rest
  }

  function Flatten<T>(batches: seq<seq<T>>): seq<T> {
    if batches == [] then [] else batches[0] + Flatten(batches[1..])
  }

  /** Appending one batch after a whole number of full batches. */
  lemma {:induction false} BatchesAppend<T>(done: seq<T>, batch: seq<T>)
    requires |done| % BatchSize == 0
    requires 0 < |batch| <= BatchSize
    ensures Batches(done + batch) == Batches(done) + [batch]
    decreases |done|
  {
    if |done| == 0 {
      assert done + batch == batch;
    } else {
      var s := done + batch;
      assert s[..BatchSize] == done[..BatchSize];
      assert s[BatchSize..] == done[BatchSize..] + batch;
      BatchesAppend(done[BatchSize..], batch);
      if |done| == BatchSize {
        assert done[BatchSize..] == [];
        assert done[..BatchSize] == done;
      }
    }
  }

  /** `index_sections(uploaded_file, sections, ...)`: collects sections into
      `batch`, uploads it whenever the running count reaches a multiple of
      1000, and uploads the non-empty remainder at the end. */
  method IndexSections<T>(client: SearchClient<T>, sections: seq<T>)
    modifies client
    ensures client.uploads == old(client.uploads) + Batches(sections)
  {
    var i := 0;
    var batch: seq<T> := [];
    ghost var flushed := 0;
    while i < |sections|
      invariant flushed + |batch| == i <= |sections|
      invariant |batch| == i % BatchSize && flushed % BatchSize == 0
      invariant batch == sections[flushed..i]
      invariant client.uploads == old(client.uploads) + Batches(sections[..flushed])
    {
      CounterStep(i);
      batch := batch + [sections[i]];
      i := i + 1;
      if i % BatchSize == 0 {
        assert sections[..i] == sections[..flushed] + batch;
        BatchesAppend(sections[..flushed], batch);
        client.UploadDocuments(batch);
        batch := [];
        flushed := i;
      }
    }
    if |batch| > 0 {
      assert sections == sections[..flushed] + batch;
      BatchesAppend(sections[..flushed], batch);
      client.UploadDocuments(batch);
    } else {
      assert sections[..flushed] == sections;
    }
  }

  lemma CounterStep(i: nat)
    ensures (i + 1) % BatchSize == if i % BatchSize == BatchSize - 1 then 0 else i % BatchSize + 1
  {
  }

  /** The number of uploads is the number of sections divided by 1000,
      rounded up; no sections means no upload at all. */
  lemma {:induction false} BatchCount<T>(sections: seq<T>)
    ensures |Batches(sections)| == (|sections| + BatchSize - 1) / BatchSize
    decreases |sections|
  {
    if |sections| > BatchSize {
      BatchCount(sections[BatchSize..]);
    }
  }

  /** The uploads, concatenated, are the sections in their original order. */
  lemma {:induction false} BatchesFlatten<T>(sections: seq<T>)
    ensures Flatten(Batches(sections)) == sections
    decreases |sections|
  {
    if |sections| > BatchSize {
      var rest := Batches(sections[BatchSize..]);
      BatchesFlatten(sections[BatchSize..]);
      assert ([sections[..BatchSize]] + rest)[1..] == rest;
      assert sections == sections[..BatchSize] + sections[BatchSize..];
    } else if |sections| > 0 {
      assert [sections][1..] == [];
    }
  }
}
