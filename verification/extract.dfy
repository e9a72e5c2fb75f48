/** The extractor: scans every `.json` document's utterances for keyword
    hits and emits, for each hit, the records of the utterances within the
    window around it (`process_json_folder`). */
module Extract {
  import opened Seqs
  import opened Text

  datatype Option<T> = None | Some(value: T)

  /** One turn of a transcript: `speaker_id` may be missing (`None`); a
      missing `form` is the empty text. */
  datatype Utterance = Utterance(speaker: Option<string>, form: string)

  /** A decoded file: its name and its utterances in document order. */
  datatype Document = Document(name: string, utterances: seq<Utterance>)

  /** One output row of the extractor: file name, speaker, the text of the
      context utterance, the hit's matched keywords joined by commas, and the
      signed distance from the hit. */
  datatype Record = Record(file: string, speaker: Option<string>, text: string, keywords: string, offset: int)

  function Min(a: int, b: int): int { if a <= b then a else b }
  function Max(a: int, b: int): int { if a >= b then a else b }

  function AsciiLower(c: char): char
  {
    if 'A' <= c <= 'Z' then (c as int + 32) as char else c
  }

  /** Lower-cases the ASCII letters of a name. */
  function Lower(s: string): string
  {
    Map(s, AsciiLower)
  }

  predicate EndsWith(s: string, suffix: string)
  {
    |suffix| <= |s| && s[|s| - |suffix|..] == suffix
  }

  /** A file is scanned when its name, lower-cased, ends in `.json`: the
      last five characters fold to `.json` one by one. */
  function IsJsonName(name: string): (b: bool)
    ensures b <==> |name| >= 5 && forall i :: 0 <= i < 5 ==> AsciiLower(name[|name| - 5 + i]) == ".json"[i]
  {
    var lower := Lower(name);
    EndsWith(lower, ".json")
  }

  /** A name is scanned when its last five characters fold to `.`, `j`,
      `s`, `o`, `n`. */
  lemma ScannedByChars(name: string)
    requires |name| >= 5
    requires AsciiLower(name[|name| - 5]) == '.' && AsciiLower(name[|name| - 4]) == 'j'
    requires AsciiLower(name[|name| - 3]) == 's' && AsciiLower(name[|name| - 2]) == 'o'
    requires AsciiLower(name[|name| - 1]) == 'n'
    ensures IsJsonName(name)
  {
    forall i | 0 <= i < 5
      ensures AsciiLower(name[|name| - 5 + i]) == ".json"[i]
    {
    }
  }

  /** Names ending in `.json`, `.JSON` or `.Json` are all scanned. */
  lemma JsonAnyCase(stem: string)
    ensures IsJsonName(stem + ".json") && IsJsonName(stem + ".JSON") && IsJsonName(stem + ".Json")
  {
    var a, b, c := stem + ".json", stem + ".JSON", stem + ".Json";
    var n := |stem| + 5;
    assert a[n - 5] == '.' && a[n - 4] == 'j' && a[n - 3] == 's' && a[n - 2] == 'o' && a[n - 1] == 'n';
    assert b[n - 5] == '.' && b[n - 4] == 'J' && b[n - 3] == 'S' && b[n - 2] == 'O' && b[n - 1] == 'N';
    assert c[n - 5] == '.' && c[n - 4] == 'J' && c[n - 3] == 's' && c[n - 2] == 'o' && c[n - 1] == 'n';
    ScannedByChars(a);
    ScannedByChars(b);
    ScannedByChars(c);
  }

  /** A name whose last character does not fold to `n` is skipped, e.g. a
      `.jsonl` or `.txt` file. */
  lemma SkippedByLastChar(name: string)
    requires |name| > 0 && AsciiLower(name[|name| - 1]) != 'n'
    ensures !IsJsonName(name)
  {
    if |name| >= 5 {
      assert ".json"[4] == 'n';
    }
  }

  /** `found` holds each keyword occurring in `text` exactly as often as the
      keyword list does, and no other. */
  ghost predicate SameCounts(found: seq<string>, keywords: seq<string>, text: string)
  {
    forall k :: multiset(found)[k] == if Contains(text, k) then multiset(keywords)[k] else 0
  }

  /** The keywords that occur in `text`, in keyword-list order, each as often
      as it is listed. */
  function Found(keywords: seq<string>, text: string): (found: seq<string>)
    ensures forall k :: k in found <==> k in keywords && Contains(text, k)
    ensures IsSubseq(found, keywords)
    decreases |keywords|
  {
    if |keywords| == 0 then []
    else
      var rest := Found(keywords[1..], text);
      if Contains(text, keywords[0]) then
        assert ([keywords[0]] + rest)[1..] == rest;
        [keywords[0]] + rest
      else rest
  }

  /** A keyword listed twice is matched twice: `Found` keeps every
      occurring keyword exactly as often as the list holds it. */
  lemma {:induction false} FoundCounts(keywords: seq<string>, text: string)
    ensures SameCounts(Found(keywords, text), keywords, text)
    decreases |keywords|
  {
    if |keywords| > 0 {
      FoundCounts(keywords[1..], text);
      assert keywords == [keywords[0]] + keywords[1..];
      assert multiset(keywords) == multiset{keywords[0]} + multiset(keywords[1..]);
    }
  }

  /** An utterance is a hit when some keyword occurs in its text. */
  predicate IsHit(u: Utterance, keywords: seq<string>)
  {
    |Found(keywords, u.form)| > 0
  }

  /** The record for position `j`, emitted for a hit at distance `offset`. */
  function At(doc: Document, j: int, found: string, offset: int): Record
    requires 0 <= j < |doc.utterances|
  {
    Record(doc.name, doc.utterances[j].speaker, doc.utterances[j].form, found, offset)
  }

  /** The offset loop from `from` up to `w` around the hit at `hit`,
      keeping only in-range positions. The result is exactly the positions
      between the larger of `hit + from` and 0 and the smaller of `hit + w`
      and the last index, in ascending order. */
  function WindowFrom(doc: Document, hit: int, found: string, from: int, w: int): (rs: seq<Record>)
    ensures var lo := Max(from, -hit);
            var hi := Min(w, |doc.utterances| - 1 - hit);
            |rs| == (if lo <= hi then hi - lo + 1 else 0)
            && forall t :: 0 <= t < |rs| ==> rs[t] == At(doc, hit + lo + t, found, lo + t)
    decreases w + 1 - from
  {
    if from > w then []
    else
      var j := hit + from;
      var rest := WindowFrom(doc, hit, found, from + 1, w);
      if 0 <= j < |doc.utterances| then [At(doc, j, found, from)] + rest else rest
  }

  /** All records emitted for the hit at `hit` with window `w`: one per
      in-range position `j` in `hit - w .. hit + w`, offset `j - hit`,
      ascending; out-of-range positions are omitted, not padded. */
  function Window(doc: Document, hit: int, found: string, w: int): (rs: seq<Record>)
    ensures var lo := Max(0, hit - w);
            var hi := Min(|doc.utterances| - 1, hit + w);
            |rs| == (if lo <= hi then hi - lo + 1 else 0)
            && forall t :: 0 <= t < |rs| ==> rs[t] == At(doc, lo + t, found, lo + t - hit)
  {
    WindowFrom(doc, hit, found, -w, w)
  }

  /** The indices of the hits of `utts` from `idx` on, ascending. */
  function HitsFrom(utts: seq<Utterance>, keywords: seq<string>, idx: nat): (hs: seq<nat>)
    ensures forall t :: 0 <= t < |hs| ==> idx <= hs[t] < |utts|
    ensures forall t, u :: 0 <= t < u < |hs| ==> hs[t] < hs[u]
    ensures forall i :: idx <= i < |utts| ==> (i in hs <==> IsHit(utts[i], keywords))
    decreases |utts| - idx
  {
    if idx >= |utts| then []
    else
      var rest := HitsFrom(utts, keywords, idx + 1);
      if IsHit(utts[idx], keywords) then [idx] + rest else rest
  }

  function Hits(utts: seq<Utterance>, keywords: seq<string>): seq<nat>
  {
    HitsFrom(utts, keywords, 0)
  }

  /** The window of the hit at `i`, tagged with that hit's own matches. */
  function HitWindow(doc: Document, keywords: seq<string>, i: nat, w: int): seq<Record>
    requires i < |doc.utterances|
  {
    Window(doc, i, Join(Found(keywords, doc.utterances[i].form), ','), w)
  }

  /** The scan over a document's utterances from `idx` on: one run of
      records per hit. */
  function DocRunsFrom(doc: Document, keywords: seq<string>, w: int, idx: nat): seq<seq<Record>>
    decreases |doc.utterances| - idx
  {
    if idx >= |doc.utterances| then []
    else
      (if IsHit(doc.utterances[idx], keywords) then [HitWindow(doc, keywords, idx, w)] else [])
      + DocRunsFrom(doc, keywords, w, idx + 1)
  }

  /** The runs of one file; files not named `*.json` are skipped. */
  function DocRuns(doc: Document, keywords: seq<string>, w: int): seq<seq<Record>>
  {
    if IsJsonName(doc.name) then DocRunsFrom(doc, keywords, w, 0) else []
  }

  /** Every hit's run of records, documents in the given order. */
  function Runs(docs: seq<Document>, keywords: seq<string>, w: int): seq<seq<Record>>
  {
    ConcatMap(docs, d => DocRuns(d, keywords, w))
  }

  /** `x` is a record some hit emits: a hit at `i` in a scanned document,
      with `x` describing the in-range utterance `i + x.offset`, at most `w`
      away, and carrying the hit's own matches. */
  ghost predicate FromHit(x: Record, docs: seq<Document>, keywords: seq<string>, w: int)
  {
    exists d, i :: 0 <= d < |docs| && 0 <= i < |docs[d].utterances| && IsJsonName(docs[d].name)
      && IsHit(docs[d].utterances[i], keywords)
      && -w <= x.offset <= w && 0 <= i + x.offset < |docs[d].utterances|
      && x.file == docs[d].name
      && x.speaker == docs[d].utterances[i + x.offset].speaker
      && x.text == docs[d].utterances[i + x.offset].form
      && x.keywords == Join(Found(keywords, docs[d].utterances[i].form), ',')
  }

  /** All records of `process_json_folder`, in emission order; each one
      comes from a hit. */
  function ExtractRecords(docs: seq<Document>, keywords: seq<string>, w: int): (rs: seq<Record>)
    ensures forall x :: x in rs ==> FromHit(x, docs, keywords, w)
  {
    RunRecordsFromHits(docs, keywords, w);
    Flatten(Runs(docs, keywords, w))
  }

  lemma RunRecordsFromHits(docs: seq<Document>, keywords: seq<string>, w: int)
    ensures forall x :: x in Flatten(Runs(docs, keywords, w)) ==> FromHit(x, docs, keywords, w)
  {
    var runs := Runs(docs, keywords, w);
    RunsAreHitWindows(docs, keywords, w);
    forall x | x in Flatten(runs)
      ensures FromHit(x, docs, keywords, w)
    {
      var b, t := FlattenMember(runs, x);
      assert IsHitRun(runs[b], docs, keywords, w);
      var d, i :| 0 <= d < |docs| && 0 <= i < |docs[d].utterances| && IsJsonName(docs[d].name)
        && IsHit(docs[d].utterances[i], keywords) && runs[b] == HitWindow(docs[d], keywords, i, w);
      HitWindowRecords(docs[d], keywords, i, w);
    }
  }

  /** A file whose name is not `.json` contributes no runs, wherever it is
      listed. */
  lemma SkippedFileNoRuns(d1: seq<Document>, doc: Document, d2: seq<Document>, keywords: seq<string>, w: int)
    requires !IsJsonName(doc.name)
    ensures Runs(d1 + [doc] + d2, keywords, w) == Runs(d1 + d2, keywords, w)
  {
    RunsAppend(d1 + [doc], d2, keywords, w);
    RunsAppend(d1, [doc], keywords, w);
    RunsAppend(d1, d2, keywords, w);
    ConcatMapSingle(doc, d => DocRuns(d, keywords, w));
  }

  /** The number of hits over all `.json` documents. */
  function HitCount(docs: seq<Document>, keywords: seq<string>): nat
    decreases |docs|
  {
    if |docs| == 0 then 0
    else (if IsJsonName(docs[0].name) then |Hits(docs[0].utterances, keywords)| else 0) + HitCount(docs[1..], keywords)
  }

  /** Offsets strictly increase along `rs`. */
  ghost predicate Ascending(rs: seq<Record>)
  {
    forall i, j :: 0 <= i < j < |rs| ==> rs[i].offset < rs[j].offset
  }

  /** The shape of one hit's run: non-empty, offsets within `-w..w` and
      ascending, every record tagged with the hit's file and matches, and the
      hit itself is the one record with offset 0. */
  lemma WindowShape(doc: Document, hit: int, found: string, w: int)
    requires 0 <= hit < |doc.utterances| && 0 <= w
    ensures var rs := Window(doc, hit, found, w);
            var h := hit - Max(0, hit - w);
            0 <= h < |rs|
            && rs[h] == At(doc, hit, found, 0)
            && Ascending(rs)
            && (forall t :: 0 <= t < |rs| ==> -w <= rs[t].offset <= w)
            && (forall t :: 0 <= t < |rs| ==> (rs[t].offset == 0 <==> t == h))
            && (forall t :: 0 <= t < |rs| ==> rs[t].file == doc.name && rs[t].keywords == found)
  {
  }

  /** Every record of a hit's run carries that hit's matches, comma-joined
      in keyword-list order, while its speaker and text come from the
      context position `i + offset`, which is always in range. */
  lemma HitWindowRecords(doc: Document, keywords: seq<string>, i: nat, w: int)
    requires i < |doc.utterances|
    ensures var rs := HitWindow(doc, keywords, i, w);
            forall t :: 0 <= t < |rs| ==>
              var j := i + rs[t].offset;
              0 <= j < |doc.utterances|
              && -w <= rs[t].offset <= w
              && rs[t].file == doc.name
              && rs[t].keywords == Join(Found(keywords, doc.utterances[i].form), ',')
              && rs[t].speaker == doc.utterances[j].speaker
              && rs[t].text == doc.utterances[j].form
  {
  }

  /** With window 0 each hit yields exactly its own record. */
  lemma WindowZero(doc: Document, hit: int, found: string)
    requires 0 <= hit < |doc.utterances|
    ensures Window(doc, hit, found, 0) == [At(doc, hit, found, 0)]
  {
    var rs := Window(doc, hit, found, 0);
    assert |rs| == 1 && rs[0] == At(doc, hit, found, 0);
  }

  /** A negative window emits nothing (`range(-w, w + 1)` is empty). */
  lemma WindowNegative(doc: Document, hit: int, found: string, w: int)
    requires w < 0
    ensures Window(doc, hit, found, w) == []
  {
  }

  /** The runs of a document are the windows of its hits, in hit order. */
  lemma {:induction false} DocRunsMatchHits(doc: Document, keywords: seq<string>, w: int, idx: nat)
    ensures var runs := DocRunsFrom(doc, keywords, w, idx);
            var hs := HitsFrom(doc.utterances, keywords, idx);
            |runs| == |hs|
            && forall h :: 0 <= h < |hs| ==> runs[h] == HitWindow(doc, keywords, hs[h], w)
    decreases |doc.utterances| - idx
  {
    if idx < |doc.utterances| {
      var runs := DocRunsFrom(doc, keywords, w, idx);
      var hs := HitsFrom(doc.utterances, keywords, idx);
      var runs' := DocRunsFrom(doc, keywords, w, idx + 1);
      var hs' := HitsFrom(doc.utterances, keywords, idx + 1);
      DocRunsMatchHits(doc, keywords, w, idx + 1);
      if IsHit(doc.utterances[idx], keywords) {
        assert runs == [HitWindow(doc, keywords, idx, w)] + runs';
        assert hs == [idx] + hs';
        forall h | 0 < h < |hs|
          ensures runs[h] == HitWindow(doc, keywords, hs[h], w)
        {
          assert runs[h] == runs'[h - 1] && hs[h] == hs'[h - 1];
        }
      } else {
        assert runs == runs' && hs == hs';
      }
    }
  }

  /** Documents contribute their runs in the order they are given. */
  lemma RunsAppend(d1: seq<Document>, d2: seq<Document>, keywords: seq<string>, w: int)
    ensures Runs(d1 + d2, keywords, w) == Runs(d1, keywords, w) + Runs(d2, keywords, w)
  {
    ConcatMapAppend(d1, d2, d => DocRuns(d, keywords, w));
  }

  /** The records of several batches of documents are the batches' records
      one after the other. */
  lemma ExtractAppend(d1: seq<Document>, d2: seq<Document>, keywords: seq<string>, w: int)
    ensures ExtractRecords(d1 + d2, keywords, w) == ExtractRecords(d1, keywords, w) + ExtractRecords(d2, keywords, w)
  {
    RunsAppend(d1, d2, keywords, w);
    FlattenAppend(Runs(d1, keywords, w), Runs(d2, keywords, w));
  }

  /** There is exactly one run per hit. */
  lemma {:induction false} RunCount(docs: seq<Document>, keywords: seq<string>, w: int)
    ensures |Runs(docs, keywords, w)| == HitCount(docs, keywords)
    decreases |docs|
  {
    if |docs| > 0 {
      RunCount(docs[1..], keywords, w);
      DocRunsMatchHits(docs[0], keywords, w, 0);
    }
  }

  /** Every run belongs to a hit of some document: it is that hit's window. */
  ghost predicate IsHitRun(run: seq<Record>, docs: seq<Document>, keywords: seq<string>, w: int)
  {
    exists d, i :: 0 <= d < |docs| && 0 <= i < |docs[d].utterances| && IsJsonName(docs[d].name)
      && IsHit(docs[d].utterances[i], keywords) && run == HitWindow(docs[d], keywords, i, w)
  }

  lemma {:induction false} RunsAreHitWindows(docs: seq<Document>, keywords: seq<string>, w: int)
    ensures forall b :: 0 <= b < |Runs(docs, keywords, w)| ==> IsHitRun(Runs(docs, keywords, w)[b], docs, keywords, w)
    decreases |docs|
  {
    if |docs| > 0 {
      var runs := Runs(docs, keywords, w);
      var first := DocRuns(docs[0], keywords, w);
      var rest := Runs(docs[1..], keywords, w);
      assert runs == first + rest;
      RunsAreHitWindows(docs[1..], keywords, w);
      DocRunsMatchHits(docs[0], keywords, w, 0);
      forall b | 0 <= b < |runs|
        ensures IsHitRun(runs[b], docs, keywords, w)
      {
        if b < |first| {
          var i := Hits(docs[0].utterances, keywords)[b];
          assert runs[b] == HitWindow(docs[0], keywords, i, w);
          assert IsHit(docs[0].utterances[i], keywords) by {
            assert i in Hits(docs[0].utterances, keywords);
          }
        } else {
          var b' := b - |first|;
          assert 0 <= b' < |rest| && runs[b] == rest[b'];
          assert IsHitRun(rest[b'], docs[1..], keywords, w);
          var d, i :| 0 <= d < |docs[1..]| && 0 <= i < |docs[1..][d].utterances| && IsJsonName(docs[1..][d].name)
            && IsHit(docs[1..][d].utterances[i], keywords) && rest[b - |first|] == HitWindow(docs[1..][d], keywords, i, w);
          assert docs[1..][d] == docs[d + 1];
        }
      }
    }
  }

  /** No records at all exactly when the window is negative or nothing hits. */
  lemma ExtractEmpty(docs: seq<Document>, keywords: seq<string>, w: int)
    ensures |ExtractRecords(docs, keywords, w)| == 0 <==> (w < 0 || HitCount(docs, keywords) == 0)
  {
    var runs := Runs(docs, keywords, w);
    RunCount(docs, keywords, w);
    RunsAreHitWindows(docs, keywords, w);
    FlattenEmpty(runs);
    if w < 0 {
      forall b | 0 <= b < |runs|
        ensures |runs[b]| == 0
      {
        var d, i :| 0 <= d < |docs| && 0 <= i < |docs[d].utterances|
          && IsHit(docs[d].utterances[i], keywords) && runs[b] == HitWindow(docs[d], keywords, i, w);
        WindowNegative(docs[d], i, Join(Found(keywords, docs[d].utterances[i].form), ','), w);
      }
    } else if |runs| > 0 {
      var d, i :| 0 <= d < |docs| && 0 <= i < |docs[d].utterances|
        && IsHit(docs[d].utterances[i], keywords) && runs[0] == HitWindow(docs[d], keywords, i, w);
      WindowShape(docs[d], i, Join(Found(keywords, docs[d].utterances[i].form), ','), w);
    }
  }
}
