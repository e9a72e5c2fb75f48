/** The exporter (`make_excel`): drops blank rows, recomputes the group
    index from the offset column, and marks the last row of every group
    with a bottom border. */
module Export {
  import opened Seqs
  import opened Text
  import opened Extract

  predicate NonBlank(x: Record)
  {
    !IsBlank(x.text)
  }

  /** The blank-text filter: the non-blank records in their original order,
      each as often as it occurred. */
  function KeepNonBlank(rs: seq<Record>): (kept: seq<Record>)
    ensures forall x :: x in kept <==> x in rs && NonBlank(x)
  {
    Filter(rs, NonBlank)
  }

  /** Filtering keeps exactly the non-blank records, each as often as it
      occurred and in the original relative order. */
  lemma KeepExactly(rs: seq<Record>)
    ensures forall x :: multiset(KeepNonBlank(rs))[x] == (if NonBlank(x) then multiset(rs)[x] else 0)
    ensures IsSubseq(KeepNonBlank(rs), rs)
  {
    FilterMultiset(rs, NonBlank);
    FilterSubseq(rs, NonBlank);
  }

  /** Filtering keeps ascending offsets ascending. */
  lemma KeepAscending(rs: seq<Record>)
    requires Ascending(rs)
    ensures Ascending(KeepNonBlank(rs))
  {
    var kept := KeepNonBlank(rs);
    forall i, j | 0 <= i < j < |kept|
      ensures kept[i].offset < kept[j].offset
    {
      var i', j' := FilterOrder(rs, NonBlank, i, j);
    }
  }

  /** Number of `true`s. */
  function CountTrue(m: seq<bool>): nat
    decreases |m|
  {
    if |m| == 0 then 0 else (if m[0] then 1 else 0) + CountTrue(m[1..])
  }

  lemma {:induction false} CountTrueSnoc(m: seq<bool>, b: bool)
    ensures CountTrue(m + [b]) == CountTrue(m) + (if b then 1 else 0)
    decreases |m|
  {
    if |m| > 0 {
      assert (m + [b])[1..] == m[1..] + [b];
      CountTrueSnoc(m[1..], b);
    }
  }

  /** The reset mask: row `r > 0` is marked when its offset is not above the
      previous row's; row 0's difference is NaN, and NaN <= 0 is false. */
  function Mask(rows: seq<Record>): seq<bool>
  {
    seq(|rows|, r requires 0 <= r < |rows| => r > 0 && rows[r].offset <= rows[r - 1].offset)
  }

  /** The running total of a mask, started at `acc`: entry `r` is `acc` plus the
      number of marks in positions `0..r`. */
  function RunningCount(m: seq<bool>, acc: nat): (s: seq<nat>)
    ensures |s| == |m|
    ensures forall r :: 0 <= r < |s| ==> s[r] == acc + CountTrue(m[..r + 1])
    decreases |m|
  {
    if |m| == 0 then []
    else
      var b := if m[0] then 1 else 0;
      var rest := RunningCount(m[1..], acc + b);
      var s := [acc + b] + rest;
      assert forall r :: 0 < r < |s| ==> m[..r + 1] == [m[0]] + m[1..][..r];
      s
  }

  /** The `Group_Index` column: the running total of the reset mask.
      Row 0 is in group 0 and the index rises by exactly one at each later
      row whose offset is not above its predecessor's, and stays otherwise. */
  function Groups(rows: seq<Record>): (gs: seq<nat>)
    ensures |gs| == |rows|
    ensures |gs| > 0 ==> gs[0] == 0
    ensures forall r :: 0 < r < |gs| ==> Step(rows, gs, r)
  {
    var m := Mask(rows);
    var gs := RunningCount(m, 0);
    assert forall r :: 0 < r < |gs| ==> m[..r + 1] == m[..r] + [m[r]];
    forall r | 0 < r < |gs|
      ensures Step(rows, gs, r)
    {
      CountTrueSnoc(m[..r], m[r]);
    }
    gs
  }

  /** Row `r`'s group follows from row `r - 1`'s: one more exactly when the
      offset did not increase. */
  ghost predicate Step(rows: seq<Record>, gs: seq<nat>, r: int)
    requires 0 < r < |rows| == |gs|
  {
    gs[r] == gs[r - 1] + (if rows[r].offset <= rows[r - 1].offset then 1 else 0)
  }

  /** The group column never decreases. */
  lemma GroupsMonotone(rows: seq<Record>, i: int, j: int)
    requires 0 <= i <= j < |rows|
    ensures Groups(rows)[i] <= Groups(rows)[j]
    decreases j - i
  {
    if i < j {
      GroupsMonotone(rows, i, j - 1);
      assert Step(rows, Groups(rows), j);
    }
  }

  /** Any column with the same start and steps is the group column. */
  lemma GroupsUnique(rows: seq<Record>, gs: seq<nat>)
    requires |gs| == |rows|
    requires |gs| > 0 ==> gs[0] == 0
    requires forall r :: 0 < r < |gs| ==> Step(rows, gs, r)
    ensures gs == Groups(rows)
  {
    var g := Groups(rows);
    forall r | 0 <= r < |gs|
      ensures gs[r] == g[r]
    {
      GroupsAgree(rows, gs, r);
    }
  }

  lemma {:induction false} GroupsAgree(rows: seq<Record>, gs: seq<nat>, r: nat)
    requires |gs| == |rows| && r < |gs|
    requires |gs| > 0 ==> gs[0] == 0
    requires forall r :: 0 < r < |gs| ==> Step(rows, gs, r)
    ensures gs[r] == Groups(rows)[r]
  {
    if r > 0 {
      GroupsAgree(rows, gs, r - 1);
      assert Step(rows, gs, r) && Step(rows, Groups(rows), r);
    }
  }

  /** The column never decreases. */
  ghost predicate Monotone(gs: seq<nat>)
  {
    forall i, j :: 0 <= i <= j < |gs| ==> gs[i] <= gs[j]
  }

  /** No later row shares row `r`'s group. */
  ghost predicate LastOfGroup(gs: seq<nat>, r: int)
    requires 0 <= r < |gs|
  {
    forall s :: r < s < |gs| ==> gs[s] != gs[r]
  }

  /** The border test of the writing loop: the last row, or a row whose
      successor carries another group index. On a non-decreasing column that
      is exactly the last row of each group. */
  function Bordered(gs: seq<nat>, r: int): (b: bool)
    requires 0 <= r < |gs|
    ensures Monotone(gs) ==> (b <==> LastOfGroup(gs, r))
  {
    r + 1 == |gs| || gs[r + 1] != gs[r]
  }

  /** A row is bordered exactly when no later row shares its group, i.e. it
      is the last row of its group. */
  lemma BorderedIsLastOfGroup(rows: seq<Record>, r: int)
    requires 0 <= r < |rows|
    ensures var gs := Groups(rows);
            Bordered(gs, r) <==> forall s :: r < s < |gs| ==> gs[s] != gs[r]
  {
    var gs := Groups(rows);
    if Bordered(gs, r) && r + 1 < |gs| {
      forall s | r < s < |gs|
        ensures gs[s] != gs[r]
      {
        assert Step(rows, gs, r + 1);
        GroupsMonotone(rows, r + 1, s);
      }
    }
  }

  /** Two bordered rows never share a group. */
  lemma OneBorderPerGroup(rows: seq<Record>, r: int, s: int)
    requires 0 <= r < s < |rows|
    requires Bordered(Groups(rows), r)
    ensures Groups(rows)[r] != Groups(rows)[s]
  {
    BorderedIsLastOfGroup(rows, r);
  }

  /** Every group up to the last row's carries a bordered row: found by
      walking back from row `k`. */
  lemma {:induction false} BorderOf(rows: seq<Record>, v: nat, k: int) returns (r: int)
    requires 0 <= k < |rows| && v <= Groups(rows)[k]
    ensures 0 <= r <= k && Groups(rows)[r] == v
    ensures r == k || Groups(rows)[r + 1] != Groups(rows)[r]
    decreases k
  {
    var gs := Groups(rows);
    if gs[k] == v {
      r := k;
    } else {
      assert Step(rows, gs, k);
      r := BorderOf(rows, v, k - 1);
    }
  }

  lemma EveryGroupBordered(rows: seq<Record>, v: nat)
    requires |rows| > 0 && v <= Groups(rows)[|rows| - 1]
    ensures exists r :: 0 <= r < |rows| && Groups(rows)[r] == v && Bordered(Groups(rows), r)
  {
    var r := BorderOf(rows, v, |rows| - 1);
    assert Bordered(Groups(rows), r);
  }

  /** One spreadsheet row: the record's five columns plus `Group_Index`,
      and whether it carries the bottom border. */
  datatype Row = Row(record: Record, group: nat, bordered: bool)

  datatype Sheet = Sheet(header: seq<string>, rows: seq<Row>)

  /** The bold header: the record columns in dict order, then `Group_Index`. */
  const Header: seq<string> := ["파일명", "발화자 id", "발화 내용", "포함된 어휘", "순서", "Group_Index"]

  /** The record part of each row, in row order. */
  function RecordColumn(rows: seq<Row>): seq<Record>
  {
    Map(rows, (x: Row) => x.record)
  }

  /** The `Group_Index` column, in row order. */
  function GroupColumn(rows: seq<Row>): seq<nat>
  {
    Map(rows, (x: Row) => x.group)
  }

  /** The sheet written by `make_excel`: the non-blank records in order,
      a group column that starts at 0 and steps at every offset reset, and
      the border exactly on the rows that end a group (so on the last row). */
  function MakeSheet(records: seq<Record>): (sheet: Sheet)
    ensures sheet.header == Header
    ensures RecordColumn(sheet.rows) == KeepNonBlank(records)
    ensures |sheet.rows| > 0 ==> GroupColumn(sheet.rows)[0] == 0
    ensures forall r :: 0 < r < |sheet.rows| ==> Step(RecordColumn(sheet.rows), GroupColumn(sheet.rows), r)
    ensures forall r :: 0 <= r < |sheet.rows| ==> sheet.rows[r].bordered == Bordered(GroupColumn(sheet.rows), r)
  {
    var kept := KeepNonBlank(records);
    var rows := Rows(kept);
    assert RecordColumn(rows) == kept;
    assert GroupColumn(rows) == Groups(kept);
    Sheet(Header, rows)
  }

  /** Each kept record with its group and border flag. */
  function Rows(kept: seq<Record>): seq<Row>
  {
    var gs := Groups(kept);
    seq(|kept|, r requires 0 <= r < |kept| => Row(kept[r], gs[r], Bordered(gs, r)))
  }

  /** The number of groups: one more than the last row's group index. */
  function GroupCount(sheet: Sheet): nat
  {
    if |sheet.rows| == 0 then 0 else sheet.rows[|sheet.rows| - 1].group + 1
  }
}
