/** Side/month checkpoints of the stage-A records and the resume that reads them
    back.  Compressed JSON lines are modelled as the record list they hold. */
module Resume {
  import opened Common
  import opened Sorting

  datatype Record = Record(side: string, start: string, id: string, body: string)

  const EXPECTED_RECORDS := 898

  type Part = (string, string)

  /** Sides in the outer loop, months in the inner one. */
  const PARTS: seq<Part> := [("BID", "2023-11"), ("BID", "2023-12"), ("ASK", "2023-11"), ("ASK", "2023-12")]

  function FileName(part: Part): string { part.0 + "-" + part.1 + ".jsonl.gz" }

  function InPart(part: Part): Record -> bool {
    (r: Record) => r.side == part.0 && part.1 <= r.start
  }

  /** Order of the sort key (side, observation_start, record_id). */
  predicate RecordLe(a: Record, b: Record) {
    if a.side != b.side then LexLe(a.side, b.side)
    else if a.start != b.start then LexLe(a.start, b.start)
    else LexLe(a.id, b.id)
  }

  type Files = map<string, seq<Record>>

  lemma NamesDiffer()
    ensures forall i, j :: 0 <= i < j < |PARTS| ==> FileName(PARTS[i]) != FileName(PARTS[j])
  {
    forall i, j | 0 <= i < j < |PARTS| ensures FileName(PARTS[i]) != FileName(PARTS[j]) {
      var (p, q) := (PARTS[i], PARTS[j]);
      assert FileName(p)[0] == p.0[0] && FileName(q)[0] == q.0[0];
      assert FileName(p)[10] == p.1[6] && FileName(q)[10] == q.1[6];
    }
  }

  /** The parts that `CheckpointRecords` leaves behind. */
  ghost predicate HoldsParts(files: Files, records: seq<Record>) {
    forall i :: 0 <= i < |PARTS| ==>
      FileName(PARTS[i]) in files && files[FileName(PARTS[i])] == Filter(records, InPart(PARTS[i]))
  }

  method CheckpointRecords(records: seq<Record>) returns (files: Files)
    ensures files.Keys == set i | 0 <= i < |PARTS| :: FileName(PARTS[i])
    ensures HoldsParts(files, records)
  {
    files := map[];
    for i := 0 to |PARTS|
      invariant files.Keys == set j | 0 <= j < i :: FileName(PARTS[j])
      invariant forall j :: 0 <= j < i ==> files[FileName(PARTS[j])] == Filter(records, InPart(PARTS[j]))
    {
      NamesDiffer();
      files := files[FileName(PARTS[i]) := Filter(records, InPart(PARTS[i]))];
    }
  }

  ghost predicate Present(files: Files, n: nat) {
    forall i :: 0 <= i < n && i < |PARTS| ==> FileName(PARTS[i]) in files
  }

  /** Contents of the first `n` parts, in order. */
  ghost function Read(files: Files, n: nat): seq<Record>
    requires n <= |PARTS| && Present(files, n)
  {
    if n == 0 then [] else Read(files, n - 1) + files[FileName(PARTS[n - 1])]
  }

  function Resumed(records: seq<Record>): Result<seq<Record>> {
    var sorted := SortBy(records, RecordLe);
    if |sorted| != EXPECTED_RECORDS then Err("RESUME_RECORD_COUNT_MISMATCH") else Ok(sorted)
  }

  method LoadCheckpoints(files: Files) returns (r: Result<seq<Record>>)
    ensures r == if Present(files, |PARTS|) then Resumed(Read(files, |PARTS|)) else Err("MISSING_CHECKPOINT")
  {
    var result: seq<Record> := [];
    for i := 0 to |PARTS|
      invariant Present(files, i)
      invariant result == Read(files, i)
    {
      if FileName(PARTS[i]) !in files {
        return Err("MISSING_CHECKPOINT");
      }
      result := result + files[FileName(PARTS[i])];
    }
    r := Resumed(result);
  }

  // ----- resume equivalence -----

  predicate Declared(r: Record) {
    (r.side == "BID" || r.side == "ASK") && ("2023-11" <= r.start || "2023-12" <= r.start)
  }

  function OnSide(side: string): Record -> bool {
    (r: Record) => r.side == side && ("2023-11" <= r.start || "2023-12" <= r.start)
  }

  lemma MonthsInOrder(a: string, b: string)
    requires "2023-11" <= a && "2023-12" <= b
    ensures a != b && LexLe(a, b) && !LexLe(b, a)
  {
    assert a[6] == "2023-11"[6] && b[6] == "2023-12"[6];
    assert a[..6] == "2023-11"[..6] && b[..6] == "2023-12"[..6] && "2023-11"[..6] == "2023-12"[..6];
    LexDecidedAt(a, b, 6);
  }

  /** The two months of a side sit next to each other in a sorted list. */
  lemma MonthsJoin(records: seq<Record>, side: string)
    requires Sorted(records, RecordLe)
    ensures Filter(records, InPart((side, "2023-11"))) + Filter(records, InPart((side, "2023-12")))
            == Filter(records, OnSide(side))
  {
    var (first, second, both) := (InPart((side, "2023-11")), InPart((side, "2023-12")), OnSide(side));
    forall r ensures both(r) == (first(r) || second(r)) && !(first(r) && second(r)) {
      if first(r) && second(r) {
        MonthsInOrder(r.start, r.start);
      }
    }
    forall a, b | RecordLe(a, b) && second(a) ensures !first(b) {
      if first(b) {
        MonthsInOrder(b.start, a.start);
      }
    }
    FilterSplits(records, first, second, both, RecordLe);
  }

  /** The asks all precede the bids. */
  lemma SidesJoin(records: seq<Record>)
    requires Sorted(records, RecordLe)
    ensures Filter(records, OnSide("ASK")) + Filter(records, OnSide("BID")) == Filter(records, Declared)
  {
    FilterSplits(records, OnSide("ASK"), OnSide("BID"), Declared, RecordLe);
  }

  /** Re-sorting the parts swaps the sides back into key order. */
  lemma SortRestores(records: seq<Record>)
    requires Sorted(records, RecordLe)
    ensures SortBy(Filter(records, OnSide("BID")) + Filter(records, OnSide("ASK")), RecordLe) == Filter(records, Declared)
  {
    var (bids, asks) := (Filter(records, OnSide("BID")), Filter(records, OnSide("ASK")));
    FilterSorted(records, OnSide("BID"), RecordLe);
    FilterSorted(records, OnSide("ASK"), RecordLe);
    forall a, b | a in asks && b in bids ensures !RecordLe(b, a) {
      FilterElements(records, OnSide("ASK"), a);
      FilterElements(records, OnSide("BID"), b);
    }
    SortBySwaps(bids, asks, RecordLe);
    SidesJoin(records);
  }

  lemma ReadAll(files: Files)
    requires Present(files, 4)
    ensures Read(files, 4) ==
            (files[FileName(PARTS[0])] + files[FileName(PARTS[1])]) + (files[FileName(PARTS[2])] + files[FileName(PARTS[3])])
  {
    assert Read(files, 1) == files[FileName(PARTS[0])];
    assert Read(files, 2) == files[FileName(PARTS[0])] + files[FileName(PARTS[1])];
    assert Read(files, 3) == Read(files, 2) + files[FileName(PARTS[2])];
  }

  /** Resuming reads back exactly the declared records, in the original order. */
  lemma ResumeReadsDeclared(files: Files, records: seq<Record>)
    requires Sorted(records, RecordLe) && HoldsParts(files, records)
    ensures Present(files, |PARTS|)
    ensures SortBy(Read(files, |PARTS|), RecordLe) == Filter(records, Declared)
  {
    ReadAll(files);
    MonthsJoin(records, "BID");
    MonthsJoin(records, "ASK");
    SortRestores(records);
  }

  /** Resume equivalence: a key-sorted list survives checkpoint and resume if and
      only if it has the expected size and lies in the declared sides and months. */
  lemma ResumeEquivalence(files: Files, records: seq<Record>)
    requires Sorted(records, RecordLe) && HoldsParts(files, records)
    ensures Present(files, |PARTS|)
    ensures Resumed(Read(files, |PARTS|)) == Ok(records) <==>
            |records| == 898 && forall r :: r in records ==> Declared(r)
  {
    ResumeReadsDeclared(files, records);
    FilterAll(records, Declared);
  }
}
