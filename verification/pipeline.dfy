/** The whole request (`run` without the archive and UI plumbing): parse the
    keywords, extract, and either report "no results" or build the sheet.
    Also the theorem that ties the two stages together: the exporter's
    offset-reset rule recovers exactly one group per keyword hit. */
module Pipeline {
  import opened Seqs
  import opened Text
  import opened Keywords
  import opened Extract
  import opened Export

  datatype Outcome = NoResults(message: string) | Exported(sheet: Sheet, message: string)

  const NoResultsMessage: string := "\U{1F50D} 검색 결과가 없습니다."
  const DoneMessage: string := "\U{2705} 엑셀 생성 완료!"

  /** What survives of one hit's run: non-empty, offsets ascending, the
      first at or before the hit and the last at or after it. */
  ghost predicate Shaped(rs: seq<Record>)
  {
    |rs| > 0 && Ascending(rs) && rs[0].offset <= 0 <= rs[|rs| - 1].offset
  }

  /** The hit's own record, at offset 0, is never blank: its text contains
      a trimmed non-empty keyword. */
  lemma HitRecordNotBlank(doc: Document, keywords: seq<string>, i: nat, w: int) returns (h: nat)
    requires forall k :: k in keywords ==> IsKeyword(k)
    requires i < |doc.utterances| && IsHit(doc.utterances[i], keywords) && 0 <= w
    ensures var rs := HitWindow(doc, keywords, i, w);
            h < |rs| && rs[h].offset == 0 && NonBlank(rs[h]) && Ascending(rs)
  {
    var form := doc.utterances[i].form;
    var found := Found(keywords, form);
    WindowShape(doc, i, Join(found, ','), w);
    assert found[0] in found;
    HitIsNotBlank(form, found[0]);
    h := i - Max(0, i - w);
  }

  /** Filtering an ascending run that holds a non-blank offset-0 record
      leaves it shaped. */
  lemma AnchoredRunShaped(rs: seq<Record>, h: nat)
    requires Ascending(rs) && h < |rs| && rs[h].offset == 0 && NonBlank(rs[h])
    ensures Shaped(KeepNonBlank(rs))
  {
    var kept := KeepNonBlank(rs);
    assert rs[h] in kept;
    KeepAscending(rs);
    var m :| 0 <= m < |kept| && kept[m] == rs[h];
    assert kept[0].offset <= kept[m].offset <= kept[|kept| - 1].offset;
  }

  /** Filtering leaves every hit's run shaped. */
  lemma HitWindowShaped(doc: Document, keywords: seq<string>, i: nat, w: int)
    requires forall k :: k in keywords ==> IsKeyword(k)
    requires i < |doc.utterances| && IsHit(doc.utterances[i], keywords) && 0 <= w
    ensures Shaped(KeepNonBlank(HitWindow(doc, keywords, i, w)))
  {
    var h := HitRecordNotBlank(doc, keywords, i, w);
    AnchoredRunShaped(HitWindow(doc, keywords, i, w), h);
  }

  ghost predicate AllShaped(blocks: seq<seq<Record>>)
  {
    forall b :: 0 <= b < |blocks| ==> Shaped(blocks[b])
  }

  /** Block `b` of `blocks`, row by row, labelled `base + b`. */
  function Labels(blocks: seq<seq<Record>>, base: nat): seq<nat>
    decreases |blocks|
  {
    if |blocks| == 0 then [] else seq(|blocks[0]|, _ => base) + Labels(blocks[1..], base + 1)
  }

  /** Consecutive shaped blocks step exactly like the group column labelled
      by block: within a block offsets rise, across a boundary they do not. */
  lemma {:induction false} LabelsStep(blocks: seq<seq<Record>>, base: nat)
    requires AllShaped(blocks)
    ensures var rows := Flatten(blocks);
            var ls := Labels(blocks, base);
            |ls| == |rows|
            && (|rows| > 0 ==> ls[0] == base && rows[0].offset <= 0)
            && (|rows| > 0 ==> ls[|ls| - 1] == base + |blocks| - 1 && rows[|rows| - 1].offset >= 0)
            && (|rows| == 0 <==> |blocks| == 0)
            && forall r :: 0 < r < |rows| ==> Step(rows, ls, r)
    decreases |blocks|
  {
    if |blocks| > 0 {
      var b0 := blocks[0];
      var rest := blocks[1..];
      assert forall b :: 0 <= b < |rest| ==> rest[b] == blocks[b + 1];
      LabelsStep(rest, base + 1);
      var rows := Flatten(blocks);
      var ls := Labels(blocks, base);
      var tail := Flatten(rest);
      var lt := Labels(rest, base + 1);
      assert rows == b0 + tail;
      assert ls == seq(|b0|, _ => base) + lt;
      forall r | 0 < r < |rows|
        ensures Step(rows, ls, r)
      {
        if r < |b0| {
          assert rows[r] == b0[r] && rows[r - 1] == b0[r - 1];
        } else if r == |b0| {
          assert rows[r] == tail[0] && rows[r - 1] == b0[|b0| - 1];
        } else {
          assert Step(tail, lt, r - |b0|);
          assert rows[r] == tail[r - |b0|] && rows[r - 1] == tail[r - 1 - |b0|];
        }
      }
    }
  }

  /** Each run with its blank rows dropped. */
  function Survivors(runs: seq<seq<Record>>): seq<seq<Record>>
  {
    seq(|runs|, b requires 0 <= b < |runs| => KeepNonBlank(runs[b]))
  }

  /** Dropping blank rows from all records drops them run by run. */
  lemma KeepRuns(runs: seq<seq<Record>>)
    ensures KeepNonBlank(Flatten(runs)) == Flatten(Survivors(runs))
  {
    FilterFlatten(runs, NonBlank);
    assert Survivors(runs) == seq(|runs|, b requires 0 <= b < |runs| => Filter(runs[b], NonBlank));
  }

  /** The sheet's group count read off the group column. */
  lemma SheetGroupCount(records: seq<Record>, n: nat)
    requires var kept := KeepNonBlank(records);
             (|kept| == 0 ==> n == 0) && (|kept| > 0 ==> Groups(kept)[|kept| - 1] + 1 == n)
    ensures GroupCount(MakeSheet(records)) == n
  {
    var kept := KeepNonBlank(records);
    var rows := MakeSheet(records).rows;
    GroupsUnique(kept, GroupColumn(rows));
    if |kept| > 0 {
      assert rows[|kept| - 1].group == GroupColumn(rows)[|kept| - 1];
    }
  }

  /** Every hit's surviving rows are shaped. */
  lemma SurvivorsShaped(docs: seq<Document>, keywords: seq<string>, w: int)
    requires forall k :: k in keywords ==> IsKeyword(k)
    requires 0 <= w
    ensures AllShaped(Survivors(Runs(docs, keywords, w)))
  {
    var runs := Runs(docs, keywords, w);
    var blocks := Survivors(runs);
    RunsAreHitWindows(docs, keywords, w);
    forall b | 0 <= b < |blocks|
      ensures Shaped(blocks[b])
    {
      assert IsHitRun(runs[b], docs, keywords, w);
      var d, i :| 0 <= d < |docs| && 0 <= i < |docs[d].utterances|
        && IsHit(docs[d].utterances[i], keywords) && runs[b] == HitWindow(docs[d], keywords, i, w);
      HitWindowShaped(docs[d], keywords, i, w);
    }
  }

  /** The group column of the filtered records labels each row with the
      index of the hit it came from. */
  lemma GroupsAreHitIndices(docs: seq<Document>, keywords: seq<string>, w: int)
    requires forall k :: k in keywords ==> IsKeyword(k)
    requires 0 <= w
    ensures Groups(KeepNonBlank(ExtractRecords(docs, keywords, w))) == Labels(Survivors(Runs(docs, keywords, w)), 0)
  {
    var runs := Runs(docs, keywords, w);
    var blocks := Survivors(runs);
    var kept := KeepNonBlank(ExtractRecords(docs, keywords, w));
    KeepRuns(runs);
    SurvivorsShaped(docs, keywords, w);
    LabelsStep(blocks, 0);
    GroupsUnique(kept, Labels(blocks, 0));
  }

  /** The sheet has exactly as many groups as there were hits. */
  lemma GroupCountIsHitCount(docs: seq<Document>, keywords: seq<string>, w: int)
    requires forall k :: k in keywords ==> IsKeyword(k)
    requires 0 <= w
    ensures GroupCount(MakeSheet(ExtractRecords(docs, keywords, w))) == HitCount(docs, keywords)
  {
    var runs := Runs(docs, keywords, w);
    var blocks := Survivors(runs);
    var records := ExtractRecords(docs, keywords, w);
    KeepRuns(runs);
    SurvivorsShaped(docs, keywords, w);
    LabelsStep(blocks, 0);
    GroupsAreHitIndices(docs, keywords, w);
    RunCount(docs, keywords, w);
    SheetGroupCount(records, |blocks|);
  }

  /** The main theorem: after blank rows are dropped, the rows of each hit
      form one non-empty contiguous block, every block is exactly one group,
      hits in emission order get groups 0, 1, 2, …, and the sheet has as
      many groups as there were hits. */
  lemma GroupsMatchHits(docs: seq<Document>, keywords: seq<string>, w: int)
    requires forall k :: k in keywords ==> IsKeyword(k)
    requires 0 <= w
    ensures var blocks := Survivors(Runs(docs, keywords, w));
            var kept := KeepNonBlank(ExtractRecords(docs, keywords, w));
            kept == Flatten(blocks)
            && (forall b :: 0 <= b < |blocks| ==> |blocks[b]| > 0)
            && Groups(kept) == Labels(blocks, 0)
            && GroupCount(MakeSheet(ExtractRecords(docs, keywords, w))) == HitCount(docs, keywords)
  {
    KeepRuns(Runs(docs, keywords, w));
    SurvivorsShaped(docs, keywords, w);
    GroupsAreHitIndices(docs, keywords, w);
    GroupCountIsHitCount(docs, keywords, w);
  }

  /** `run`: "no results" exactly when nothing hits (or the window is
      negative, which the code lets through as an empty range); otherwise the
      sheet, with one group per hit. */
  function Run(docs: seq<Document>, kwText: string, w: int): (out: Outcome)
    ensures out.NoResults? <==> (w < 0 || HitCount(docs, ParseKeywords(kwText)) == 0)
    ensures out.NoResults? ==> out.message == NoResultsMessage
    ensures out.Exported? ==> out.message == DoneMessage
    ensures out.Exported? ==> |out.sheet.rows| > 0 && GroupCount(out.sheet) == HitCount(docs, ParseKeywords(kwText))
    ensures out.Exported? ==> out.sheet == MakeSheet(ExtractRecords(docs, ParseKeywords(kwText), w))
    ensures out.Exported? ==> RecordColumn(out.sheet.rows) == KeepNonBlank(ExtractRecords(docs, ParseKeywords(kwText), w))
  {
    var keys := ParseKeywords(kwText);
    var records := ExtractRecords(docs, keys, w);
    ExtractEmpty(docs, keys, w);
    if |records| == 0 then NoResults(NoResultsMessage)
    else
      GroupsMatchHits(docs, keys, w);
      Exported(MakeSheet(records), DoneMessage)
  }
}
