/** The post-processing pipeline: build the document table, assign groups, and select the
    emission-reduction activities. */
module Pipeline {
  import opened Results
  import opened Seqs
  import opened Groups
  import opened Sbti

  /** The topic model's confidence for a document; carried along, never inspected. */
  type Score = real

  /** One row of the document table. */
  datatype Record = Record(text: string, topicNum: int, topicScore: Score, group: string)

  /** A row of the SBTI selection while it carries the temporary `method` column. */
  datatype Tagged = Tagged(row: Record, tag: string)

  /** The number of documents whose topics are requested from the model: ids 0..6711. */
  const DocCount := 6712

  /** The 13 groups that describe ways of reducing emissions. */
  const ActivityGroups: seq<string> := [
    "Reduce Fuel Consumption (Modern Engines/Electric Vehicles)",
    "Renewable Energy (Switch/Invest) in Solar and Wind",
    "General Scope-3: Goods/Services, Supply-Chain, Commuting",
    "Purchase Electricy with Guarantees of Origin and Renewable Certificates",
    "Replace Coal Plants with Natural Gas, Solar and Wind Powered Systems",
    "Electricity Efficient Lighting, Air-Conditioning and Refrigerants in Work Plants",
    "Recycling",
    "Gold Standard Certificates and Carbon Credits",
    "Energy Efficiency in Sold Products",
    "Reduce Stationary Combustion Emissions",
    "Market-Based",
    "Reduce Fugitive Methane from Natural Gas Processes",
    "Reduce Flaring Emissions to Zero by 2025-2030"
  ]

  // ---------------------------------------------------------------------------------------
  // The document table

  /** `docs` is a possible listing of the set of texts: every distinct text of the column
      exactly once, in an order the model leaves open. */
  predicate IsDocList(docs: seq<string>, column: seq<string>) {
    NoDup(docs) && Elems(docs) == Elems(column)
  }

  /** One listing of the distinct texts of the column (first occurrences, in column order). */
  method UniqueDocs(column: seq<string>) returns (docs: seq<string>)
    ensures IsDocList(docs, column)
  {
    docs := [];
    var i := 0;
    while i < |column|
      invariant 0 <= i <= |column|
      invariant NoDup(docs)
      invariant Elems(docs) == Elems(column[..i])
    {
      assert column[..i + 1] == column[..i] + [column[i]];
      assert Elems(column[..i + 1]) == Elems(column[..i]) + {column[i]};
      if column[i] !in docs {
        DisjointAppendNoDup(docs, [column[i]]);
        assert Elems(docs + [column[i]]) == Elems(docs) + {column[i]};
        docs := docs + [column[i]];
      }
      i := i + 1;
    }
    assert column[..i] == column;
  }

  /** However the set's elements are ordered, the document list has one entry per distinct text. */
  lemma DocListLength(docs: seq<string>, column: seq<string>)
    requires IsDocList(docs, column)
    ensures |docs| == |Elems(column)|
  {
    NoDupCardinality(docs);
  }

  /** Every row's group is the one the table assigns to its topic id. */
  predicate Grouped(df: seq<Record>) {
    forall i :: 0 <= i < |df| ==> df[i].group == GroupOf(df[i].topicNum)
  }

  /** The table built from the documents and the model's (topic id, score) pairs, with the group
      column added; pandas refuses a column whose length differs from the number of rows. */
  function BuildFrame(docs: seq<string>, assignments: seq<(int, Score)>): (r: Result<seq<Record>>)
    ensures r.Err? <==> |assignments| != |docs|
    ensures r.Ok? ==> |r.value| == |docs| && Grouped(r.value)
    ensures r.Ok? ==> forall i :: 0 <= i < |docs| ==>
              r.value[i].text == docs[i] && (r.value[i].topicNum, r.value[i].topicScore) == assignments[i]
    ensures r.Ok? && NoDup(docs) ==> NoDup(r.value)
  {
    if |assignments| != |docs| then Err(ColumnLengthMismatch(|docs|, |assignments|))
    else
      var rows := seq(|docs|, i requires 0 <= i < |docs| =>
                      Record(docs[i], assignments[i].0, assignments[i].1, GroupOf(assignments[i].0)));
      assert NoDup(docs) ==> NoDup(rows) by {
        if NoDup(docs) {
          forall i, j | 0 <= i < j < |rows| ensures rows[i] != rows[j] {
            assert rows[i].text == docs[i] && rows[j].text == docs[j];
          }
        }
      }
      Ok(rows)
  }

  // ---------------------------------------------------------------------------------------
  // The activity selection

  predicate IsActivity(r: Record) {
    r.group in ActivityGroups
  }

  /** `activities_df`: the rows whose group is one of the 13 activity groups, in table order. */
  function Activities(df: seq<Record>): (a: seq<Record>)
    ensures forall r :: r in a <==> r in df && IsActivity(r)
    ensures forall r :: multiset(a)[r] == if IsActivity(r) then multiset(df)[r] else 0
    ensures IsSubsequence(a, df) && |a| <= |df|
  {
    ActivityCounts(df);
    FilterSubsequence(df, IsActivity);
    SubsequenceMembers(Filter(df, IsActivity), df);
    Filter(df, IsActivity)
  }

  lemma ActivityCounts(df: seq<Record>)
    ensures forall r :: multiset(Filter(df, IsActivity))[r] == if IsActivity(r) then multiset(df)[r] else 0
  {
    forall r ensures multiset(Filter(df, IsActivity))[r] == if IsActivity(r) then multiset(df)[r] else 0 {
      FilterCount(df, IsActivity, r);
    }
  }

  predicate InSbtiGroup(r: Record) {
    r.group == SbtiGroup
  }

  predicate HasSdaMethod(x: Tagged) {
    x.tag == SdaAda
  }

  /** A row with its `method` value. */
  function TagRow(r: Record): Tagged {
    Tagged(r, DetectMethod(r.text))
  }

  /** A row without its `method` value. */
  function RowOf(x: Tagged): Record {
    x.row
  }

  /** The `method` column of the SBTI rows: the keyword rule applied to each text. */
  function Tag(rows: seq<Record>): (t: seq<Tagged>)
    ensures |t| == |rows|
    ensures forall i :: 0 <= i < |t| ==> t[i].row == rows[i] && t[i].tag == DetectMethod(rows[i].text)
  {
    Map(rows, TagRow)
  }

  /** Dropping the `method` column. */
  function DropMethod(tagged: seq<Tagged>): (rows: seq<Record>)
    ensures |rows| == |tagged|
    ensures forall i :: 0 <= i < |rows| ==> rows[i] == tagged[i].row
  {
    Map(tagged, RowOf)
  }

  /** `sda_df` without its `method` column: the SBTI rows tagged, filtered on the tag, untagged.
      These three pandas steps select the same rows, in the same order, as one mask: SBTI group
      and an SDA/ADA method. */
  function SdaSelection(df: seq<Record>): (s: seq<Record>)
    ensures s == Filter(df, IsSdaTarget)
  {
    var sbti := Filter(df, InSbtiGroup);
    FilterMap(sbti, TagRow, HasSdaText, HasSdaMethod);
    MapInverse(Filter(sbti, HasSdaText), TagRow, RowOf);
    SbtiThenSda(df);
    DropMethod(Filter(Tag(sbti), HasSdaMethod))
  }

  /** `complete_activities`: the activity rows followed by the SDA/ADA rows of the SBTI group,
      without the `method` column. */
  function CompleteActivities(df: seq<Record>): (c: seq<Record>)
    ensures c == Activities(df) + Filter(df, IsSdaTarget)
  {
    Activities(df) + SdaSelection(df)
  }

  /** A row the keyword rule moves into the activity selection. */
  predicate IsSdaTarget(r: Record) {
    r.group == SbtiGroup && DetectMethod(r.text) == SdaAda
  }

  predicate HasSdaText(r: Record) {
    DetectMethod(r.text) == SdaAda
  }

  /** The single mask the union amounts to: an activity row or an SDA/ADA target. */
  predicate IsExported(r: Record) {
    IsActivity(r) || IsSdaTarget(r)
  }

  /** Two masks applied one after the other are their conjunction. */
  lemma {:induction false} SbtiThenSda(df: seq<Record>)
    ensures Filter(Filter(df, InSbtiGroup), HasSdaText) == Filter(df, IsSdaTarget)
    decreases |df|
  {
    if |df| > 0 {
      SbtiThenSda(df[1..]);
      if InSbtiGroup(df[0]) {
        assert Filter(df, InSbtiGroup)[1..] == Filter(df[1..], InSbtiGroup);
      }
    }
  }

  /** The SBTI label is not one of the 13 activity groups. */
  lemma SbtiNotActivity()
    ensures SbtiGroup !in ActivityGroups
  {
    assert |SbtiGroup| == 24;
    assert forall k :: 0 <= k < |ActivityGroups| ==> |ActivityGroups[k]| != 24;
  }

  /** Because the SBTI group is not an activity group, no row is in both selections. */
  lemma SelectionsDisjoint(df: seq<Record>)
    ensures forall r :: r in Activities(df) ==> r !in SdaSelection(df)
  {
    SbtiNotActivity();
    forall r | r in Activities(df) ensures r !in Filter(df, IsSdaTarget) {
      assert r.group in ActivityGroups;
    }
  }

  /** What `complete_activities` holds: exactly the rows of `df` that are activities or SDA/ADA
      targets, unchanged, each as often as in the one-mask selection; no row twice when `df` has
      no row twice. */
  lemma CompleteActivitiesSpec(df: seq<Record>)
    ensures forall r :: r in CompleteActivities(df) <==> r in df && (IsActivity(r) || IsSdaTarget(r))
    ensures multiset(CompleteActivities(df)) == multiset(Filter(df, IsExported))
    ensures |CompleteActivities(df)| == |Filter(df, IsExported)|
    ensures NoDup(df) ==> NoDup(CompleteActivities(df))
  {
    SelectionsDisjoint(df);
    SbtiNotActivity();
    forall r ensures !(IsActivity(r) && IsSdaTarget(r)) {
      if IsActivity(r) {
        assert r.group in ActivityGroups;
      }
    }
    FilterDisjointUnion(df, IsActivity, IsSdaTarget, IsExported);
    if NoDup(df) {
      FilterNoDup(df, IsActivity);
      FilterNoDup(df, IsSdaTarget);
      DisjointAppendNoDup(Activities(df), SdaSelection(df));
    }
  }

  /** Every exported row of a built table carries a real group of the table, never "None", so its
      topic id lies in 0..74. */
  lemma ExportedRowsAreGrouped(df: seq<Record>)
    requires Grouped(df)
    ensures forall r :: r in CompleteActivities(df) ==>
              r.group in Choices && r.group != NoGroup && 0 <= r.topicNum <= 74
  {
    CompleteActivitiesSpec(df);
    NoGroupNotActivity();
    forall r | r in CompleteActivities(df)
      ensures r.group in Choices && r.group != NoGroup && 0 <= r.topicNum <= 74
    {
      var i :| 0 <= i < |df| && df[i] == r;
      assert r.group == GroupOf(r.topicNum) != NoGroup;
      GroupOfRange(r.topicNum);
    }
  }

  /** "None" is not an activity group. */
  lemma NoGroupNotActivity()
    ensures NoGroup !in ActivityGroups
  {
    assert forall k :: 0 <= k < |ActivityGroups| ==> |ActivityGroups[k]| != |NoGroup|;
  }

  /** The whole run: documents from the text column, topics from the model for ids 0..6711,
      groups, and the activity selection. It fails exactly when the column does not have
      6712 distinct texts. */
  method Run(column: seq<string>, assignments: seq<(int, Score)>)
    returns (result: Result<(seq<Record>, seq<Record>)>)
    requires |assignments| == DocCount
    ensures result.Ok? <==> |Elems(column)| == DocCount
    ensures result.Ok? ==>
              var (df, complete) := result.value;
              && |df| == DocCount && NoDup(df) && Grouped(df)
              && (forall r :: r in df ==> r.text in column)
              && (forall i :: 0 <= i < |column| ==> exists k :: 0 <= k < |df| && df[k].text == column[i])
              && (forall i :: 0 <= i < DocCount ==> (df[i].topicNum, df[i].topicScore) == assignments[i])
              && complete == Activities(df) + Filter(df, IsSdaTarget)
              && (forall r :: r in complete <==> r in df && (IsActivity(r) || IsSdaTarget(r)))
              && NoDup(complete)
  {
    var docs := UniqueDocs(column);
    DocListLength(docs, column);
    var frame := BuildFrame(docs, assignments);
    if frame.Err? {
      return Err(frame.error);
    }
    var df := frame.value;
    forall r | r in df ensures r.text in column {
      var i :| 0 <= i < |df| && df[i] == r;
      assert docs[i] in Elems(docs);
    }
    forall i | 0 <= i < |column| ensures exists k :: 0 <= k < |df| && df[k].text == column[i] {
      assert column[i] in Elems(docs);
      var k :| 0 <= k < |docs| && docs[k] == column[i];
      assert df[k].text == column[i];
    }
    CompleteActivitiesSpec(df);
    return Ok((df, CompleteActivities(df)));
  }

  // ---------------------------------------------------------------------------------------
  // Worked examples

  /** Topic 13 is the "Factories and Plants in Asia" group, which is not exported. */
  lemma Topic13Excluded(text: string, score: Score)
    ensures GroupOf(13) == "Discussion of Factories and Plants in Asia"
    ensures CompleteActivities([Record(text, 13, score, GroupOf(13))]) == []
  {
    GroupOfListed(13, 9);
    var g := GroupOf(13);
    assert g == "Discussion of Factories and Plants in Asia";
    NotActivityByLength(g);
    OnlyRowExcluded(Record(text, 13, score, g));
  }

  /** No activity group and not the SBTI label has 42 characters. */
  lemma NotActivityByLength(g: string)
    requires |g| == 42
    ensures g !in ActivityGroups && g != SbtiGroup
  {
    assert forall k :: 0 <= k < |ActivityGroups| ==> |ActivityGroups[k]| != 42;
  }

  /** Topic 99 is in no list, so its group is "None" and it is not exported. */
  lemma Topic99Excluded(text: string, score: Score)
    ensures GroupOf(99) == NoGroup
    ensures CompleteActivities([Record(text, 99, score, GroupOf(99))]) == []
  {
    GroupOfRange(99);
    NoGroupNotActivity();
    OnlyRowExcluded(Record(text, 99, score, NoGroup));
  }

  /** A table of one row outside both selections exports nothing. */
  lemma OnlyRowExcluded(r: Record)
    requires r.group !in ActivityGroups && r.group != SbtiGroup
    ensures CompleteActivities([r]) == []
  {
    assert Filter([r], IsActivity) == Filter([r][1..], IsActivity);
    assert Filter([r], IsSdaTarget) == Filter([r][1..], IsSdaTarget);
  }

  /** A target reading "Decarbonization Strategy 2030" under an SBTI topic is reclassified as
      SDA/ADA and exported. */
  lemma DecarbonizationIncluded(t: int, score: Score)
    requires t in Conditions[0]
    ensures GroupOf(t) == SbtiGroup
    ensures var r := Record("Decarbonization Strategy 2030", t, score, GroupOf(t));
            CompleteActivities([r]) == [r]
  {
    GroupOfListed(t, 0);
    var text := "Decarbonization Strategy 2030";
    DecarbonizationStrategy();
    var r := Record(text, t, score, SbtiGroup);
    SbtiNotActivity();
    assert Filter([r], IsActivity) == Filter([r][1..], IsActivity);
    assert Filter([r], IsSdaTarget) == [r] + Filter([r][1..], IsSdaTarget);
  }
}
