/**
 What the labels mean on the floor plan: which seats of a section get the same row, in which order rows and numbers
 are given out, and that the seats are those of the file, moved by the seed's shift.
 */
module RowHeights {
  import opened SeatRows

  // ----------------------------------------------------------- rows are by height

  ghost predicate Ascending(s: seq<Seat>) {
    forall i, j :: 0 <= i < j < |s| ==> s[i].y <= s[j].y
  }

  /** Every seat of an earlier row lies more than 1.0 below every seat of a later one. */
  ghost predicate Apart(rows: seq<seq<Seat>>) {
    forall q, r, a, b :: 0 <= q < r < |rows| && a in rows[q] && b in rows[r] ==> a.y + 1.0 < b.y
  }

  ghost predicate EachAscending(rows: seq<seq<Seat>>) {
    forall r :: 0 <= r < |rows| ==> Ascending(rows[r])
  }

  ghost predicate NoneAbove(rows: seq<seq<Seat>>, y: real) {
    forall r, a :: 0 <= r < |rows| && a in rows[r] ==> a.y <= y
  }

  /** What the rows of ascending seats are, the last of which is at height y. */
  ghost predicate Layered(rows: seq<seq<Seat>>, y: real) {
    Apart(rows) && EachAscending(rows) && NoneAbove(rows, y)
  }

  lemma NewRowIsLayered(rows: seq<seq<Seat>>, y: real, v: Seat)
    requires Layered(rows, y) && y + 1.0 < v.y
    ensures Layered(rows + [[v]], v.y)
  {
    var rows' := rows + [[v]];
    forall q, r, a: Seat, b: Seat | 0 <= q < r < |rows'| && a in rows'[q] && b in rows'[r] ensures a.y + 1.0 < b.y {
      assert a in rows[q];
      if r < |rows| { assert b in rows[r]; }
    }
    forall r, a: Seat | 0 <= r < |rows'| && a in rows'[r] ensures a.y <= v.y {
      if r < |rows| { assert a in rows[r]; }
    }
  }

  lemma LongerRowAscends(last: seq<Seat>, v: Seat)
    requires Ascending(last) && forall a :: a in last ==> a.y <= v.y
    ensures Ascending(last + [v])
  {}

  lemma LongerRowIsLayered(earlier: seq<seq<Seat>>, last: seq<Seat>, y: real, v: Seat)
    requires Layered(earlier + [last], y) && y <= v.y
    requires last != [] && last[|last| - 1].y == y
    ensures Layered(earlier + [last + [v]], v.y)
  {
    var rows, rows', n := earlier + [last], earlier + [last + [v]], |earlier|;
    assert rows[n] == last && last[|last| - 1] in rows[n];
    forall q, r, a: Seat, b: Seat | 0 <= q < r < |rows'| && a in rows'[q] && b in rows'[r] ensures a.y + 1.0 < b.y {
      assert a in rows[q];
      assert a.y + 1.0 < last[|last| - 1].y || r < n;
      if b in rows[r] {} else { assert b == v; }
    }
    forall r, a: Seat | 0 <= r < |rows'| && a in rows'[r] ensures a.y <= v.y {
      if a in rows[r] {} else { assert a == v; }
    }
    forall r | 0 <= r < |rows'| ensures Ascending(rows'[r]) {
      assert Ascending(rows[r]);
      if r == n { LongerRowAscends(last, v); }
    }
  }

  lemma NextSeatIsLayered(earlier: seq<seq<Seat>>, last: seq<Seat>, y: real, v: Seat, rows: seq<seq<Seat>>)
    requires Layered(earlier + [last], y) && y <= v.y
    requires last != [] && last[|last| - 1].y == y
    requires rows == if Joins(y, v.y) then earlier + [last + [v]] else earlier + [last] + [[v]]
    ensures Layered(rows, v.y)
  {
    if Joins(y, v.y) {
      LongerRowIsLayered(earlier, last, y, v);
    } else {
      NewRowIsLayered(earlier + [last], y, v);
    }
  }

  lemma PrefixAscends(s: seq<Seat>)
    requires Ascending(s) && |s| > 1
    ensures Ascending(s[..|s| - 1]) && s[|s| - 2].y <= s[|s| - 1].y
  {}

  lemma OneRowIsLayered(s: seq<Seat>)
    requires |s| == 1
    ensures Layered(Rows(s), s[0].y)
  {}

  /** The rows of seats in ascending order are apart, and each of them is ascending. */
  lemma {:induction false} RowsApart(s: seq<Seat>)
    requires Ascending(s) && s != []
    ensures Layered(Rows(s), s[|s| - 1].y)
    decreases |s|
  {
    if |s| == 1 {
      OneRowIsLayered(s);
    } else {
      PrefixAscends(s);
      RowsApart(s[..|s| - 1]);
      RowsApartStep(s);
    }
  }

  lemma RowsApartStep(s: seq<Seat>)
    requires |s| > 1 && s[|s| - 2].y <= s[|s| - 1].y && Layered(Rows(s[..|s| - 1]), s[|s| - 2].y)
    ensures Layered(Rows(s), s[|s| - 1].y)
  {
    var earlier, last := LastRow(s[..|s| - 1]);
    RowsSnoc(s, earlier, last);
    NextSeatIsLayered(earlier, last, s[|s| - 2].y, s[|s| - 1], Rows(s));
  }

  lemma SortedByHeight(seats: seq<Seat>)
    ensures Ascending(Sort(seats, ByYThenX)) && multiset(Sort(seats, ByYThenX)) == multiset(seats)
  {
    OrdersAreOrders();
    SortSorts(seats, ByYThenX);
  }

  /** Some seat of the row is higher than y, but by no more than 1.0. */
  ghost predicate Bridged(row: seq<Seat>, y: real) {
    exists c :: c in row && y < c.y <= y + 1.0
  }

  /** Of two seats of a row more than 1.0 apart, the lower is at the sentinel or has a seat of the row closely above. */
  lemma NoGapsInRow(row: seq<Seat>, i: nat, j: nat)
    requires Ascending(row) && i < j < |row| && row[i].y + 1.0 < row[j].y
    requires forall k :: 0 < k < |row| ==> Joins(row[k - 1].y, row[k].y)
    ensures row[i].y == -1.0 || Bridged(row, row[i].y)
    decreases j - i
  {
    var c := row[i + 1];
    assert Joins(row[i].y, c.y) && c in row;
    if c.y == row[i].y { NoGapsInRow(row, i + 1, j); }
  }

  // ------------------------------------------------------------- rows of a section

  /** The rows of one section, lowest first. */
  function RowsOf(seats: seq<Seat>, section: string): seq<seq<Seat>> {
    Rows(Sort(InSection(seats, section), ByYThenX))
  }

  lemma RowsOfAreLayered(seats: seq<Seat>, section: string)
    ensures Apart(RowsOf(seats, section)) && EachAscending(RowsOf(seats, section))
  {
    var sorted := Sort(InSection(seats, section), ByYThenX);
    SortedByHeight(InSection(seats, section));
    if sorted != [] { RowsApart(sorted); }
  }

  lemma RowAscends(seats: seq<Seat>, section: string, r: nat)
    requires r < |RowsOf(seats, section)|
    ensures Ascending(RowsOf(seats, section)[r])
  {
    RowsOfAreLayered(seats, section);
  }

  /** What the grouping test says of one row and of the step to it. */
  lemma RowJoins(seats: seq<Seat>, section: string, r: nat)
    requires r < |RowsOf(seats, section)|
    ensures var rows := RowsOf(seats, section);
            && rows[r] != [] && (forall k :: 0 < k < |rows[r]| ==> Joins(rows[r][k - 1].y, rows[r][k].y))
            && (r > 0 ==> rows[r - 1] != [] && !Joins(rows[r - 1][|rows[r - 1]| - 1].y, rows[r][0].y))
  {
    RowsFollowTest(Sort(InSection(seats, section), ByYThenX));
    CutReads(RowsOf(seats, section), Joins, r);
  }

  lemma RowHasNoGaps(seats: seq<Seat>, section: string, r: nat, a: Seat, b: Seat)
    requires r < |RowsOf(seats, section)|
    requires var row := RowsOf(seats, section)[r]; a in row && b in row && a.y + 1.0 < b.y
    ensures a.y == -1.0 || Bridged(RowsOf(seats, section)[r], a.y)
  {
    RowAscends(seats, section, r);
    RowJoins(seats, section, r);
    var row := RowsOf(seats, section)[r];
    var i :| 0 <= i < |row| && row[i] == a;
    var j :| 0 <= j < |row| && row[j] == b;
    assert i < j;
    NoGapsInRow(row, i, j);
  }

  /** A row with a seat at the sentinel that does not take in what comes next ends above the sentinel. */
  lemma RowEndsAboveSentinel(row: seq<Seat>, a: Seat, next: real)
    requires Ascending(row) && a in row && a.y == -1.0
    requires !Joins(row[|row| - 1].y, next)
    ensures row[|row| - 1].y > -1.0
  {
    var i :| 0 <= i < |row| && row[i] == a;
    assert i < |row| - 1 ==> row[i].y <= row[|row| - 1].y;
  }

  lemma RowEnds(seats: seq<Seat>, section: string, q: nat) returns (next: real)
    requires q + 1 < |RowsOf(seats, section)|
    ensures var row := RowsOf(seats, section)[q]; row != [] && Ascending(row) && !Joins(row[|row| - 1].y, next)
  {
    RowAscends(seats, section, q);
    RowJoins(seats, section, q + 1);
    next := RowsOf(seats, section)[q + 1][0].y;
  }

  lemma LowerSeatEarlierRow(seats: seq<Seat>, section: string, q: nat, r: nat, a: Seat, b: Seat)
    requires q < |RowsOf(seats, section)| && r < |RowsOf(seats, section)|
    requires a in RowsOf(seats, section)[q] && b in RowsOf(seats, section)[r] && a.y < b.y
    ensures q <= r
  {
    RowsOfAreLayered(seats, section);
  }

  /** A row with a seat at the sentinel goes on at least to the next height of the section. */
  lemma SentinelRowGoesOn(seats: seq<Seat>, section: string, q: nat, r: nat, a: Seat, b: Seat) returns (c: Seat)
    requires q < |RowsOf(seats, section)| && r < |RowsOf(seats, section)|
    requires a in RowsOf(seats, section)[q] && b in RowsOf(seats, section)[r] && a.y == -1.0 < b.y
    ensures c in RowsOf(seats, section)[q] && c.y > -1.0
  {
    c := b;
    LowerSeatEarlierRow(seats, section, q, r, a, b);
    if q != r {
      var row := RowsOf(seats, section)[q];
      var next := RowEnds(seats, section, q);
      RowEndsAboveSentinel(row, a, next);
      c := row[|row| - 1];
    }
  }

  // -------------------------------------------------------------- labels and rows

  /** The label stands in row r of its seat's section. */
  ghost predicate IsInRow(seats: seq<Seat>, l: Labelled, r: nat) {
    r < |RowsOf(seats, l.seat.section)| && l in LabelRow(RowsOf(seats, l.seat.section)[r], r)
  }

  lemma SeatsOfRow(row: seq<Seat>, index: nat)
    ensures forall l :: l in LabelRow(row, index) ==> l.seat in row
    ensures forall s :: s in row ==> exists l :: l in LabelRow(row, index) && l.seat == s
  {
    OrdersAreOrders();
    SortSorts(row, ByX);
    var sorted, labels := Sort(row, ByX), LabelRow(row, index);
    forall l | l in labels ensures l.seat in row {
      assert l.seat in multiset(sorted);
    }
    forall s | s in row ensures exists l :: l in labels && l.seat == s {
      assert s in multiset(row);
      var i :| 0 <= i < |sorted| && sorted[i] == s;
      assert labels[i] in labels;
    }
  }

  lemma {:induction false} LabelsOfRows(rows: seq<seq<Seat>>, n: nat, l: Labelled)
    requires n <= |rows|
    ensures l in LabelRows(rows, n) <==> exists r :: 0 <= r < n && l in LabelRow(rows[r], r)
  {
    if n > 0 { LabelsOfRows(rows, n - 1, l); }
  }

  /** What comes out is exactly the labels of all rows of all sections. */
  lemma {:induction false} LabelsOfSections(seats: seq<Seat>, names: seq<string>, l: Labelled)
    ensures l in LabelSections(seats, names) <==> l.seat.section in names && exists r :: IsInRow(seats, l, r)
    decreases |names|
  {
    if names != [] {
      var init, name := names[..|names| - 1], names[|names| - 1];
      assert names == init + [name];
      LabelsOfSections(seats, init, l);
      SectionOfLabels(seats, name);
      LabelsOfRows(RowsOf(seats, name), |RowsOf(seats, name)|, l);
      if l.seat.section == name {
        if r: nat :| IsInRow(seats, l, r) { assert l in LabelRow(RowsOf(seats, name)[r], r); }
        if l in LabelSection(InSection(seats, name)) {
          var r :| 0 <= r < |RowsOf(seats, name)| && l in LabelRow(RowsOf(seats, name)[r], r);
          assert IsInRow(seats, l, r);
        }
      }
    }
  }

  lemma EveryLabelHasRow(seats: seq<Seat>, l: Labelled)
    requires l in Enhanced(seats)
    ensures exists r :: IsInRow(seats, l, r)
  {
    LabelsOfSections(seats, SectionNames(seats), l);
  }

  lemma EveryLabelComesOut(seats: seq<Seat>, section: string, r: nat, l: Labelled)
    requires r < |RowsOf(seats, section)| && l in LabelRow(RowsOf(seats, section)[r], r)
    ensures l in Enhanced(seats) && IsInRow(seats, l, r) && l.seat.section == section
  {
    var rows := RowsOf(seats, section);
    LabelsOfRows(rows, |rows|, l);
    SectionOfLabels(seats, section);
    SectionIsNamed(seats, section, l);
    assert IsInRow(seats, l, r);
    LabelsOfSections(seats, SectionNames(seats), l);
  }

  lemma EveryRowIsLabelled(seats: seq<Seat>, section: string, r: nat, s: Seat) returns (l: Labelled)
    requires r < |RowsOf(seats, section)| && s in RowsOf(seats, section)[r]
    ensures l in Enhanced(seats) && IsInRow(seats, l, r) && l.seat == s && s.section == section
  {
    var row := RowsOf(seats, section)[r];
    SeatsOfRow(row, r);
    l :| l in LabelRow(row, r) && l.seat == s;
    EveryLabelComesOut(seats, section, r, l);
  }

  /** A label of a section comes from a seat of it, so the section is named. */
  lemma SectionIsNamed(seats: seq<Seat>, section: string, l: Labelled)
    requires l in LabelSection(InSection(seats, section))
    ensures section in SectionNames(seats)
  {
    var out := LabelSection(InSection(seats, section));
    SectionPermutes(InSection(seats, section));
    var i :| 0 <= i < |out| && out[i] == l;
    assert Seats(out)[i] == l.seat;
    assert l.seat in multiset(Seats(out));
    InSectionCount(seats, section, l.seat);
    assert l.seat in multiset(seats);
    NamesDistinct(seats);
  }

  // --------------------------------------------------------------- order in a row

  predicate ByXThenY(a: Seat, b: Seat) {
    a.x < b.x || (a.x == b.x && a.y <= b.y)
  }

  lemma {:induction false} StableInsert(s: seq<Seat>, v: Seat)
    requires IsSorted(s, ByXThenY) && forall a :: a in s ==> a.y <= v.y
    ensures IsSorted(Insert(s, v, ByX), ByXThenY)
    decreases |s|
  {
    if s != [] && !ByX(s[|s| - 1], v) {
      var init, last := s[..|s| - 1], s[|s| - 1];
      StableInsert(init, v);
      InsertAdds(init, v, ByX);
      forall e | e in Insert(init, v, ByX) ensures ByXThenY(e, last) {
        assert e in multiset(Insert(init, v, ByX));
        assert e in init || e == v;
      }
    } else if s != [] {
      forall i | 0 <= i < |s| ensures ByXThenY(s[i], v) {
        assert ByXThenY(s[i], s[|s| - 1]) || i == |s| - 1;
      }
    }
  }

  /** Sorting an ascending row by x leaves seats of equal x in ascending order. */
  lemma {:induction false} StableSort(s: seq<Seat>)
    requires Ascending(s)
    ensures IsSorted(Sort(s, ByX), ByXThenY)
    decreases |s|
  {
    if s != [] {
      var init := s[..|s| - 1];
      StableSort(init);
      OrdersAreOrders();
      SortSorts(init, ByX);
      forall a | a in Sort(init, ByX) ensures a.y <= s[|s| - 1].y {
        assert a in multiset(init);
        var i :| 0 <= i < |init| && init[i] == a;
      }
      StableInsert(Sort(init, ByX), s[|s| - 1]);
    }
  }

  // ------------------------------------------------------------------ rows, counted

  lemma InRowTells(seats: seq<Seat>, l: Labelled, r: nat)
    requires IsInRow(seats, l, r)
    ensures l.seat in RowsOf(seats, l.seat.section)[r] && l.row == (65 + r) % 65536
  {
    var row := RowsOf(seats, l.seat.section)[r];
    SeatsOfRow(row, r);
    RowRunsLeftToRight(row, r);
  }

  lemma LaterRowIsHigher(seats: seq<Seat>, l: Labelled, m: Labelled, q: nat, r: nat)
    requires IsInRow(seats, l, q) && IsInRow(seats, m, r) && l.seat.section == m.seat.section && q < r
    ensures l.seat.y + 1.0 < m.seat.y
  {
    InRowTells(seats, l, q);
    InRowTells(seats, m, r);
    RowsOfAreLayered(seats, l.seat.section);
  }

  lemma RowIsUnique(seats: seq<Seat>, l: Labelled, q: nat, r: nat)
    requires IsInRow(seats, l, q) && IsInRow(seats, l, r)
    ensures q == r
  {
    if q < r { LaterRowIsHigher(seats, l, l, q, r); }
    if r < q { LaterRowIsHigher(seats, l, l, r, q); }
  }

  lemma OrderInRow(seats: seq<Seat>, l: Labelled, m: Labelled, r: nat)
    requires IsInRow(seats, l, r) && IsInRow(seats, m, r) && l.seat.section == m.seat.section && l.number < m.number
    ensures ByXThenY(l.seat, m.seat)
  {
    var row := RowsOf(seats, l.seat.section)[r];
    RowRunsLeftToRight(row, r);
    RowAscends(seats, l.seat.section, r);
    StableSort(row);
    var labels := LabelRow(row, r);
    var i :| 0 <= i < |labels| && labels[i] == l;
    var j :| 0 <= j < |labels| && labels[j] == m;
  }

  /** The row of a label, counted from the lowest of its section. */
  ghost function RowIndex(seats: seq<Seat>, l: Labelled): (r: nat)
    requires l in Enhanced(seats)
    ensures IsInRow(seats, l, r)
  {
    EveryLabelHasRow(seats, l);
    var r: nat :| IsInRow(seats, l, r);
    r
  }

  ghost function RowIndices(seats: seq<Seat>): (index: seq<nat>)
    ensures |index| == |Enhanced(seats)|
    ensures forall i :: 0 <= i < |index| ==> IsInRow(seats, Enhanced(seats)[i], index[i])
  {
    var out := Enhanced(seats);
    seq(|out|, i requires 0 <= i < |out| => RowIndex(seats, out[i]))
  }

  /** The two labels stand in the same row of the same section. */
  ghost predicate SameRow(out: seq<Labelled>, index: seq<nat>, i: int, j: int)
    requires |index| == |out|
  {
    && 0 <= i < |out| && 0 <= j < |out|
    && out[i].seat.section == out[j].seat.section && index[i] == index[j]
  }

  /** Some seat of the row of i has a height in the range. */
  ghost predicate RowReaches(out: seq<Labelled>, index: seq<nat>, i: int, above: real, upTo: real)
    requires |index| == |out|
  {
    exists c :: SameRow(out, index, i, c) && above < out[c].seat.y <= upTo
  }

  /** A seat of a row is among the labels that come out with this row. */
  lemma RowIsReached(seats: seq<Seat>, i: nat, c: Seat, upTo: real)
    requires i < |Enhanced(seats)|
    requires var l := Enhanced(seats)[i]; c in RowsOf(seats, l.seat.section)[RowIndices(seats)[i]]
    requires c.y <= upTo
    ensures forall above :: above < c.y ==> RowReaches(Enhanced(seats), RowIndices(seats), i, above, upTo)
  {
    var out, index := Enhanced(seats), RowIndices(seats);
    var m := EveryRowIsLabelled(seats, out[i].seat.section, index[i], c);
    var j :| 0 <= j < |out| && out[j] == m;
    RowIsUnique(seats, m, index[i], index[j]);
    assert SameRow(out, index, i, j);
  }

  lemma NoGaps(seats: seq<Seat>, i: nat, j: nat)
    requires SameRow(Enhanced(seats), RowIndices(seats), i, j)
    requires Enhanced(seats)[i].seat.y + 1.0 < Enhanced(seats)[j].seat.y
    ensures var out, y := Enhanced(seats), Enhanced(seats)[i].seat.y;
            y == -1.0 || RowReaches(out, RowIndices(seats), i, y, y + 1.0)
  {
    var out, index := Enhanced(seats), RowIndices(seats);
    var a, b := out[i].seat, out[j].seat;
    InRowTells(seats, out[i], index[i]);
    InRowTells(seats, out[j], index[j]);
    RowHasNoGaps(seats, a.section, index[i], a, b);
    if a.y != -1.0 {
      var c :| c in RowsOf(seats, a.section)[index[i]] && a.y < c.y <= a.y + 1.0;
      RowIsReached(seats, i, c, a.y + 1.0);
    }
  }

  lemma SentinelSwallows(seats: seq<Seat>, i: nat, j: nat)
    requires i < |Enhanced(seats)| && j < |Enhanced(seats)|
    requires var a, b := Enhanced(seats)[i].seat, Enhanced(seats)[j].seat; a.section == b.section && a.y == -1.0 < b.y
    ensures RowReaches(Enhanced(seats), RowIndices(seats), i, -1.0, Enhanced(seats)[j].seat.y)
  {
    var out, index := Enhanced(seats), RowIndices(seats);
    var a, b := out[i].seat, out[j].seat;
    InRowTells(seats, out[i], index[i]);
    InRowTells(seats, out[j], index[j]);
    if index[i] == index[j] {
      RowIsReached(seats, i, b, b.y);
    } else {
      var c := SentinelRowGoesOn(seats, a.section, index[i], index[j], a, b);
      var m := EveryRowIsLabelled(seats, a.section, index[i], c);
      LowerSeatEarlierRow(seats, a.section, index[i], index[j], a, b);
      LaterRowIsHigher(seats, m, out[j], index[i], index[j]);
      RowIsReached(seats, i, c, b.y);
    }
  }

  /** Rows are counted without gaps, from the lowest, and so are the seats of a row. */
  lemma CountedWithoutGaps(seats: seq<Seat>, i: nat)
    requires i < |Enhanced(seats)|
    ensures var out, index := Enhanced(seats), RowIndices(seats);
            && (index[i] > 0 ==>
                  exists j :: 0 <= j < |out| && out[j].seat.section == out[i].seat.section && index[j] == index[i] - 1)
            && out[i].number >= 1
            && (out[i].number > 1 ==> exists j :: SameRow(out, index, i, j) && out[j].number == out[i].number - 1)
  {
    var out, index := Enhanced(seats), RowIndices(seats);
    var section, r := out[i].seat.section, index[i];
    var rows := RowsOf(seats, section);
    if r > 0 {
      RowJoins(seats, section, r);
      var m := EveryRowIsLabelled(seats, section, r - 1, rows[r - 1][0]);
      var j := PositionOf(seats, m, r - 1);
    }
    RowRunsLeftToRight(rows[r], r);
    var labels := LabelRow(rows[r], r);
    var p :| 0 <= p < |labels| && labels[p] == out[i];
    if p > 0 {
      EveryLabelComesOut(seats, section, r, labels[p - 1]);
      var j := PositionOf(seats, labels[p - 1], r);
      assert SameRow(out, index, i, j);
    }
  }

  lemma PositionOf(seats: seq<Seat>, m: Labelled, r: nat) returns (j: nat)
    requires m in Enhanced(seats) && IsInRow(seats, m, r)
    ensures j < |Enhanced(seats)| && Enhanced(seats)[j] == m && RowIndices(seats)[j] == r
  {
    j :| 0 <= j < |Enhanced(seats)| && Enhanced(seats)[j] == m;
    RowIsUnique(seats, m, r, RowIndices(seats)[j]);
  }

  // ----------------------------------------------------------------- order of output

  /** Labels l and m stand in rows q and r, in this order. */
  ghost predicate AreInRows(rows: seq<seq<Seat>>, l: Labelled, m: Labelled, q: nat, r: nat) {
    && q <= r < |rows| && l in LabelRow(rows[q], q) && m in LabelRow(rows[r], r)
    && (q == r ==> l.number < m.number)
  }

  ghost predicate RowByRowPair(rows: seq<seq<Seat>>, l: Labelled, m: Labelled) {
    exists q: nat, r: nat :: AreInRows(rows, l, m, q, r)
  }

  ghost predicate AllRowByRow(rows: seq<seq<Seat>>, out: seq<Labelled>) {
    forall i, j :: 0 <= i < j < |out| ==> RowByRowPair(rows, out[i], out[j])
  }

  lemma SameRowOrder(rows: seq<seq<Seat>>, r: nat)
    requires r < |rows|
    ensures AllRowByRow(rows, LabelRow(rows[r], r))
  {
    RowRunsLeftToRight(rows[r], r);
    var row := LabelRow(rows[r], r);
    forall i, j | 0 <= i < j < |row| ensures RowByRowPair(rows, row[i], row[j]) {
      assert AreInRows(rows, row[i], row[j], r, r);
    }
  }

  lemma EarlierRowOrder(rows: seq<seq<Seat>>, r: nat, l: Labelled, m: Labelled)
    requires r < |rows| && l in LabelRows(rows, r) && m in LabelRow(rows[r], r)
    ensures RowByRowPair(rows, l, m)
  {
    LabelsOfRows(rows, r, l);
    var q :| 0 <= q < r && l in LabelRow(rows[q], q);
    assert AreInRows(rows, l, m, q, r);
  }

  lemma RowByRowConcat(rows: seq<seq<Seat>>, before: seq<Labelled>, row: seq<Labelled>)
    requires AllRowByRow(rows, before) && AllRowByRow(rows, row)
    requires forall l, m :: l in before && m in row ==> RowByRowPair(rows, l, m)
    ensures AllRowByRow(rows, before + row)
  {}

  lemma {:induction false} RowOrder(rows: seq<seq<Seat>>, n: nat)
    requires n <= |rows|
    ensures AllRowByRow(rows, LabelRows(rows, n))
  {
    if n > 0 {
      RowOrder(rows, n - 1);
      SameRowOrder(rows, n - 1);
      forall l, m | l in LabelRows(rows, n - 1) && m in LabelRow(rows[n - 1], n - 1) ensures RowByRowPair(rows, l, m) {
        EarlierRowOrder(rows, n - 1, l, m);
      }
      RowByRowConcat(rows, LabelRows(rows, n - 1), LabelRow(rows[n - 1], n - 1));
    }
  }

  /** The section at p comes before the one at q among the names. */
  ghost predicate NamedBefore(names: seq<string>, first: string, second: string) {
    exists p, q :: 0 <= p < q < |names| && names[p] == first && names[q] == second
  }

  /** Of two labels in this order: rows, and numbers within a row, go up; different sections come as named. */
  ghost predicate InOrder(seats: seq<Seat>, names: seq<string>, l: Labelled, m: Labelled) {
    if l.seat.section == m.seat.section then
      exists q, r :: q <= r && IsInRow(seats, l, q) && IsInRow(seats, m, r) && (q == r ==> l.number < m.number)
    else NamedBefore(names, l.seat.section, m.seat.section)
  }

  ghost predicate AllInOrder(seats: seq<Seat>, names: seq<string>, out: seq<Labelled>) {
    forall i, j :: 0 <= i < j < |out| ==> InOrder(seats, names, out[i], out[j])
  }

  lemma PairInOrder(seats: seq<Seat>, names: seq<string>, section: string, l: Labelled, m: Labelled)
    requires RowByRowPair(RowsOf(seats, section), l, m) && l.seat.section == m.seat.section == section
    ensures InOrder(seats, names, l, m)
  {
    var q: nat, r: nat :| AreInRows(RowsOf(seats, section), l, m, q, r);
    assert IsInRow(seats, l, q) && IsInRow(seats, m, r);
  }

  lemma SectionInOrder(seats: seq<Seat>, names: seq<string>, section: string)
    ensures AllInOrder(seats, names, LabelSection(InSection(seats, section)))
  {
    var out, rows := LabelSection(InSection(seats, section)), RowsOf(seats, section);
    SectionOfLabels(seats, section);
    RowOrder(rows, |rows|);
    forall i, j | 0 <= i < j < |out| ensures InOrder(seats, names, out[i], out[j]) {
      assert out[i] in out && out[j] in out;
      PairInOrder(seats, names, section, out[i], out[j]);
    }
  }

  lemma NamedBeforeSnoc(names: seq<string>, name: string, first: string, second: string)
    ensures NamedBefore(names, first, second) ==> NamedBefore(names + [name], first, second)
    ensures first in names && second == name ==> NamedBefore(names + [name], first, second)
  {
    var all := names + [name];
    if p, q :| 0 <= p < q < |names| && names[p] == first && names[q] == second {
      assert all[p] == first && all[q] == second;
    }
    if first in names && second == name {
      var p :| 0 <= p < |names| && names[p] == first;
      assert all[p] == first && all[|names|] == second;
    }
  }

  lemma OrderOfMoreNames(seats: seq<Seat>, names: seq<string>, name: string, l: Labelled, m: Labelled)
    requires InOrder(seats, names, l, m)
    ensures InOrder(seats, names + [name], l, m)
  {
    NamedBeforeSnoc(names, name, l.seat.section, m.seat.section);
  }

  lemma LaterSectionInOrder(seats: seq<Seat>, names: seq<string>, name: string, l: Labelled, m: Labelled)
    requires l in LabelSections(seats, names) && m in LabelSection(InSection(seats, name)) && name !in names
    ensures InOrder(seats, names + [name], l, m)
  {
    SectionOfLabels(seats, name);
    LabelsOfSections(seats, names, l);
    NamedBeforeSnoc(names, name, l.seat.section, m.seat.section);
  }

  lemma InOrderConcat(seats: seq<Seat>, names: seq<string>, before: seq<Labelled>, section: seq<Labelled>)
    requires AllInOrder(seats, names, before) && AllInOrder(seats, names, section)
    requires forall l, m :: l in before && m in section ==> InOrder(seats, names, l, m)
    ensures AllInOrder(seats, names, before + section)
  {}

  lemma MoreNamesInOrder(seats: seq<Seat>, names: seq<string>, name: string, out: seq<Labelled>)
    requires AllInOrder(seats, names, out)
    ensures AllInOrder(seats, names + [name], out)
  {
    forall i, j | 0 <= i < j < |out| ensures InOrder(seats, names + [name], out[i], out[j]) {
      OrderOfMoreNames(seats, names, name, out[i], out[j]);
    }
  }

  lemma {:induction false} SectionsInOrder(seats: seq<Seat>, names: seq<string>)
    requires DistinctNames(names)
    ensures AllInOrder(seats, names, LabelSections(seats, names))
    decreases |names|
  {
    if names != [] {
      var init, name := names[..|names| - 1], names[|names| - 1];
      assert names == init + [name] && name !in init;
      var before, section := LabelSections(seats, init), LabelSection(InSection(seats, name));
      SectionsInOrder(seats, init);
      MoreNamesInOrder(seats, init, name, before);
      SectionInOrder(seats, names, name);
      forall l, m | l in before && m in section ensures InOrder(seats, names, l, m) {
        LaterSectionInOrder(seats, init, name, l, m);
      }
      InOrderConcat(seats, names, before, section);
    }
  }

  /** Seat i is the first of its section. */
  ghost predicate IsFirst(seats: seq<Seat>, section: string, i: int) {
    0 <= i < |seats| && seats[i].section == section && forall j :: 0 <= j < i ==> seats[j].section != section
  }

  lemma {:induction false} NamesByAppearance(seats: seq<Seat>, p: nat, q: nat, i: nat, j: nat)
    requires p < q < |SectionNames(seats)|
    requires IsFirst(seats, SectionNames(seats)[p], i) && IsFirst(seats, SectionNames(seats)[q], j)
    ensures i < j
    decreases |seats|
  {
    var init, last := seats[..|seats| - 1], |seats| - 1;
    var names := SectionNames(init);
    assert p < |names|;
    NamedHasSeat(init, names[p]);
    if q < |names| {
      NamedHasSeat(init, names[q]);
      NamesByAppearance(init, p, q, i, j);
    } else {
      NamesDistinct(init);
      assert forall k :: 0 <= k < last ==> seats[k] == init[k] && init[k] in init;
    }
  }

  /** A named section has a seat, so its first one is among them. */
  lemma {:induction false} NamedHasSeat(seats: seq<Seat>, name: string)
    requires name in SectionNames(seats)
    ensures exists k :: 0 <= k < |seats| && seats[k].section == name
    decreases |seats|
  {
    var init, last := seats[..|seats| - 1], |seats| - 1;
    if seats[last].section != name {
      NamedHasSeat(init, name);
      var k :| 0 <= k < |init| && init[k].section == name;
      assert seats[k].section == name;
    }
  }

  /**
   The order of what comes out: sections as they first appear in the file, in each its rows from the lowest up, in each
   row its numbers. So no two seats of a section share row and number.
   */
  lemma LabelsInOrder(seats: seq<Seat>, i: nat, j: nat)
    requires i < j < |Enhanced(seats)|
    ensures var out, index := Enhanced(seats), RowIndices(seats);
            if out[i].seat.section == out[j].seat.section
            then index[i] < index[j] || (index[i] == index[j] && out[i].number < out[j].number)
            else forall f, g ::
                   IsFirst(seats, out[i].seat.section, f) && IsFirst(seats, out[j].seat.section, g) ==> f < g
  {
    var out, index, names := Enhanced(seats), RowIndices(seats), SectionNames(seats);
    NamesDistinct(seats);
    SectionsInOrder(seats, names);
    assert InOrder(seats, names, out[i], out[j]);
    if out[i].seat.section == out[j].seat.section {
      var q, r :| q <= r && IsInRow(seats, out[i], q) && IsInRow(seats, out[j], r)
                  && (q == r ==> out[i].number < out[j].number);
      RowIsUnique(seats, out[i], q, index[i]);
      RowIsUnique(seats, out[j], r, index[j]);
    } else {
      var p, q :| 0 <= p < q < |names| && names[p] == out[i].seat.section && names[q] == out[j].seat.section;
      forall f: nat, g: nat | IsFirst(seats, names[p], f) && IsFirst(seats, names[q], g) ensures f < g {
        NamesByAppearance(seats, p, q, f, g);
      }
    }
  }

  // ------------------------------------------------------------------- the theorem

  /** Rows are lettered from A, in UTF-16 code units. */
  ghost predicate Lettered(out: seq<Labelled>, index: seq<nat>)
    requires |index| == |out|
  {
    forall i :: 0 <= i < |out| ==> out[i].row == (65 + index[i]) % 65536
  }

  predicate SameSection(out: seq<Labelled>, i: int, j: int) {
    0 <= i < |out| && 0 <= j < |out| && out[i].seat.section == out[j].seat.section
  }

  /** Of two rows of a section the later one lies higher, by more than 1.0 from seat to seat. */
  ghost predicate LaterIsHigher(out: seq<Labelled>, index: seq<nat>)
    requires |index| == |out|
  {
    forall i, j :: SameSection(out, i, j) && index[i] < index[j] ==> out[i].seat.y + 1.0 < out[j].seat.y
  }

  /**
   Two seats of one row more than 1.0 apart have another between them, close above the lower, unless that one is at
   height -1.
   */
  ghost predicate NoGapsAbove(out: seq<Labelled>, index: seq<nat>)
    requires |index| == |out|
  {
    forall i, j :: SameRow(out, index, i, j) && out[i].seat.y + 1.0 < out[j].seat.y ==>
      out[i].seat.y == -1.0 || RowReaches(out, index, i, out[i].seat.y, out[i].seat.y + 1.0)
  }

  /** A seat at height -1 shares its row with the next height of its section, however far. */
  ghost predicate SwallowsNext(out: seq<Labelled>, index: seq<nat>)
    requires |index| == |out|
  {
    forall i, j :: SameSection(out, i, j) && out[i].seat.y == -1.0 < out[j].seat.y ==>
      RowReaches(out, index, i, -1.0, out[j].seat.y)
  }

  /** Rows are counted without gaps, and so are the seats of a row, from one. */
  ghost predicate Counted(out: seq<Labelled>, index: seq<nat>)
    requires |index| == |out|
  {
    && (forall i :: 0 <= i < |out| ==> out[i].number >= 1)
    && (forall i :: 0 <= i < |out| && index[i] > 0 ==>
          exists j :: 0 <= j < |out| && out[j].seat.section == out[i].seat.section && index[j] == index[i] - 1)
    && (forall i :: 0 <= i < |out| && out[i].number > 1 ==>
          exists j :: SameRow(out, index, i, j) && out[j].number == out[i].number - 1)
  }

  /** Along a row x goes up and, at equal x, height does. */
  ghost predicate LeftToRight(out: seq<Labelled>, index: seq<nat>)
    requires |index| == |out|
  {
    forall i, j :: SameRow(out, index, i, j) && out[i].number < out[j].number ==>
      var a, b := out[i].seat, out[j].seat;
      a.x < b.x || (a.x == b.x && a.y <= b.y)
  }

  /** In each section rows come out in order, and in each row numbers do, none of them twice. */
  ghost predicate RowByRow(out: seq<Labelled>, index: seq<nat>)
    requires |index| == |out|
  {
    forall i, j :: SameSection(out, i, j) && i < j ==>
      index[i] < index[j] || (index[i] == index[j] && out[i].number < out[j].number)
  }

  lemma RowsAreLettered(seats: seq<Seat>)
    ensures Lettered(Enhanced(seats), RowIndices(seats))
  {
    var out, index := Enhanced(seats), RowIndices(seats);
    forall i | 0 <= i < |out| ensures out[i].row == (65 + index[i]) % 65536 {
      InRowTells(seats, out[i], index[i]);
    }
  }

  lemma RowsGoUp(seats: seq<Seat>)
    ensures LaterIsHigher(Enhanced(seats), RowIndices(seats))
  {
    var out, index := Enhanced(seats), RowIndices(seats);
    forall i, j | SameSection(out, i, j) && index[i] < index[j] ensures out[i].seat.y + 1.0 < out[j].seat.y {
      LaterRowIsHigher(seats, out[i], out[j], index[i], index[j]);
    }
  }

  lemma RowsHaveNoGaps(seats: seq<Seat>)
    ensures NoGapsAbove(Enhanced(seats), RowIndices(seats))
  {
    var out, index := Enhanced(seats), RowIndices(seats);
    forall i, j | SameRow(out, index, i, j) && out[i].seat.y + 1.0 < out[j].seat.y
      ensures out[i].seat.y == -1.0 || RowReaches(out, index, i, out[i].seat.y, out[i].seat.y + 1.0)
    {
      NoGaps(seats, i, j);
    }
  }

  lemma SentinelsSwallow(seats: seq<Seat>)
    ensures SwallowsNext(Enhanced(seats), RowIndices(seats))
  {
    var out, index := Enhanced(seats), RowIndices(seats);
    forall i, j | SameSection(out, i, j) && out[i].seat.y == -1.0 < out[j].seat.y
      ensures RowReaches(out, index, i, -1.0, out[j].seat.y)
    {
      SentinelSwallows(seats, i, j);
    }
  }

  lemma AllCounted(seats: seq<Seat>)
    ensures Counted(Enhanced(seats), RowIndices(seats))
  {
    forall i: nat | i < |Enhanced(seats)| { CountedWithoutGaps(seats, i); }
  }

  lemma RowsRunRight(seats: seq<Seat>)
    ensures LeftToRight(Enhanced(seats), RowIndices(seats))
  {
    var out, index := Enhanced(seats), RowIndices(seats);
    forall i, j | SameRow(out, index, i, j) && out[i].number < out[j].number
      ensures ByXThenY(out[i].seat, out[j].seat)
    {
      OrderInRow(seats, out[i], out[j], index[i]);
    }
  }

  lemma OutputIsRowByRow(seats: seq<Seat>)
    ensures RowByRow(Enhanced(seats), RowIndices(seats))
  {
    var out, index := Enhanced(seats), RowIndices(seats);
    forall i, j | SameSection(out, i, j) && i < j
      ensures index[i] < index[j] || (index[i] == index[j] && out[i].number < out[j].number)
    {
      LabelsInOrder(seats, i, j);
    }
  }

  /**
   The labels by height and position alone: the seats of each section fall into rows, counted from the lowest, such that
   all of the above holds.
   */
  lemma RowsByHeight(seats: seq<Seat>) returns (index: seq<nat>)
    ensures |index| == |Enhanced(seats)|
    ensures var out := Enhanced(seats);
            && LaterIsHigher(out, index) && NoGapsAbove(out, index) && SwallowsNext(out, index)
            && Lettered(out, index) && Counted(out, index) && LeftToRight(out, index) && RowByRow(out, index)
  {
    index := RowIndices(seats);
    RowsGoUp(seats);
    RowsHaveNoGaps(seats);
    SentinelsSwallow(seats);
    RowsAreLettered(seats);
    AllCounted(seats);
    RowsRunRight(seats);
    OutputIsRowByRow(seats);
  }

  // ------------------------------------------------------------------- the shift

  /** The seats moved back to where the seatmap file has them. */
  function MovedBack(s: seq<Seat>): (r: seq<Seat>)
    ensures |r| == |s|
  {
    seq(|s|, i requires 0 <= i < |s| => Seat(s[i].id, s[i].section, s[i].x - 5.0, s[i].y + 8.0))
  }

  lemma {:induction false} MovedBackCount(s: seq<Seat>, v: Seat)
    ensures multiset(MovedBack(s))[v] == multiset(s)[Shifted(v)]
    decreases |s|
  {
    if s != [] {
      var init, last := s[..|s| - 1], s[|s| - 1];
      MovedBackCount(init, v);
      assert s == init + [last] && MovedBack(s) == MovedBack(init) + MovedBack([last]);
      assert MovedBack([last])[0] == v <==> last == Shifted(v);
    }
  }

  lemma {:induction false} ShiftedCount(s: seq<Seat>, v: Seat)
    ensures multiset(ShiftedAll(s))[Shifted(v)] == multiset(s)[v]
    decreases |s|
  {
    if s != [] {
      var init, last := s[..|s| - 1], s[|s| - 1];
      ShiftedCount(init, v);
      assert s == init + [last] && ShiftedAll(s) == ShiftedAll(init) + [Shifted(last)];
      assert Shifted(last) == Shifted(v) <==> last == v;
    }
  }

  /** The seats that come out, moved back by 5 and 8, are the seats of the file, each as often as there. */
  lemma SeededIsPermutation(file: seq<Seat>)
    ensures multiset(MovedBack(Seats(Enhanced(ShiftedAll(file))))) == multiset(file)
  {
    var s := Seats(Enhanced(ShiftedAll(file)));
    EnhancedIsPermutation(ShiftedAll(file));
    forall v: Seat ensures multiset(MovedBack(s))[v] == multiset(file)[v] {
      MovedBackCount(s, v);
      ShiftedCount(file, v);
    }
  }
}
