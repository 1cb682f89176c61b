/**
 The seeding step that turns bare seat coordinates into sections, lettered rows and numbered seats.
 Coordinates are reals; a row label is the UTF-16 code unit that String.fromCharCode makes of 65 + index.
 */
module SeatRows {
  datatype Seat = Seat(id: string, section: string, x: real, y: real)
  datatype Labelled = Labelled(seat: Seat, row: nat, number: nat)

  const SENTINEL := -1.0
  const Y_TOLERANCE := 1.0
  const CODE_UNITS: nat := 65536

  /** The seats as they enter grouping: moved right and up. */
  function Shifted(s: Seat): Seat {
    s.(x := s.x + 5.0, y := s.y - 8.0)
  }

  /** The first map over the seats of the file. */
  function ShiftedAll(s: seq<Seat>): seq<Seat> {
    seq(|s|, i requires 0 <= i < |s| => Shifted(s[i]))
  }

  // -------------------------------------------------------------------- sorting

  predicate ByYThenX(a: Seat, b: Seat) {
    if a.y == b.y then a.x <= b.x else a.y <= b.y
  }

  predicate ByX(a: Seat, b: Seat) {
    a.x <= b.x
  }

  function Insert(s: seq<Seat>, v: Seat, le: (Seat, Seat) -> bool): seq<Seat> {
    if s == [] || le(s[|s| - 1], v) then s + [v]
    else Insert(s[..|s| - 1], v, le) + [s[|s| - 1]]
  }

  /** A stable sort, as Array.prototype.sort is. */
  function Sort(s: seq<Seat>, le: (Seat, Seat) -> bool): seq<Seat> {
    if s == [] then [] else Insert(Sort(s[..|s| - 1], le), s[|s| - 1], le)
  }

  ghost predicate IsSorted(s: seq<Seat>, le: (Seat, Seat) -> bool) {
    forall i, j :: 0 <= i < j < |s| ==> le(s[i], s[j])
  }

  ghost predicate IsOrder(le: (Seat, Seat) -> bool) {
    && (forall a, b :: le(a, b) || le(b, a))
    && (forall a, b, c :: le(a, b) && le(b, c) ==> le(a, c))
  }

  lemma {:induction false} InsertAdds(s: seq<Seat>, v: Seat, le: (Seat, Seat) -> bool)
    ensures multiset(Insert(s, v, le)) == multiset(s) + multiset{v}
    decreases |s|
  {
    if s != [] && !le(s[|s| - 1], v) {
      InsertAdds(s[..|s| - 1], v, le);
      assert s == s[..|s| - 1] + [s[|s| - 1]];
    }
  }

  lemma {:induction false} InsertSorted(s: seq<Seat>, v: Seat, le: (Seat, Seat) -> bool)
    requires IsOrder(le) && IsSorted(s, le)
    ensures IsSorted(Insert(s, v, le), le)
    decreases |s|
  {
    if s != [] && !le(s[|s| - 1], v) {
      var init, last := s[..|s| - 1], s[|s| - 1];
      InsertSorted(init, v, le);
      InsertAdds(init, v, le);
      forall e | e in Insert(init, v, le) ensures le(e, last) {
        assert e in multiset(Insert(init, v, le));
        assert e in init || e == v;
      }
    }
  }

  lemma {:induction false} SortSorts(s: seq<Seat>, le: (Seat, Seat) -> bool)
    requires IsOrder(le)
    ensures IsSorted(Sort(s, le), le) && multiset(Sort(s, le)) == multiset(s) && |Sort(s, le)| == |s|
    decreases |s|
  {
    if s != [] {
      SortSorts(s[..|s| - 1], le);
      InsertSorted(Sort(s[..|s| - 1], le), s[|s| - 1], le);
      InsertAdds(Sort(s[..|s| - 1], le), s[|s| - 1], le);
      assert s == s[..|s| - 1] + [s[|s| - 1]];
      assert |multiset(Sort(s, le))| == |Sort(s, le)| && |multiset(s)| == |s|;
    }
  }

  // ------------------------------------------------------------------- grouping

  function Abs(r: real): real {
    if r < 0.0 then -r else r
  }

  /** The test of the grouping loop; `lastY` starts as the sentinel, and a seat may set it to that value again. */
  predicate Joins(lastY: real, y: real) {
    lastY == SENTINEL || Abs(y - lastY) <= Y_TOLERANCE
  }

  /** The rows of a sorted section: a seat extends the last row if it joins the seat before it. */
  function Rows(s: seq<Seat>): (rows: seq<seq<Seat>>)
    ensures s == [] <==> rows == []
  {
    if s == [] then []
    else if |s| == 1 then [s]
    else
      var rows, v := Rows(s[..|s| - 1]), s[|s| - 1];
      if Joins(s[|s| - 2].y, v.y) then rows[|rows| - 1 := rows[|rows| - 1] + [v]]
      else rows + [[v]]
  }

  function Flatten(rows: seq<seq<Seat>>): seq<Seat> {
    if rows == [] then [] else Flatten(rows[..|rows| - 1]) + rows[|rows| - 1]
  }

  /** One step of grouping, with the last row set apart from the earlier ones. */
  lemma RowsSnoc(s: seq<Seat>, earlier: seq<seq<Seat>>, last: seq<Seat>)
    requires s != []
    requires |s| > 1 ==> Rows(s[..|s| - 1]) == earlier + [last]
    ensures |s| == 1 ==> Rows(s) == [[s[0]]]
    ensures |s| > 1 ==>
              var v := s[|s| - 1];
              Rows(s) == if Joins(s[|s| - 2].y, v.y) then earlier + [last + [v]] else earlier + [last] + [[v]]
  {
    if |s| > 1 {
      var rows := earlier + [last];
      assert rows[|rows| - 1 := last + [s[|s| - 1]]] == earlier + [last + [s[|s| - 1]]];
    } else {
      assert s == [s[0]];
    }
  }

  method GroupRows(s: seq<Seat>) returns (rows: seq<seq<Seat>>)
    ensures rows == Rows(s)
  {
    rows := [];
    var currentRow: seq<Seat> := [];
    var lastY := SENTINEL;
    for i := 0 to |s|
      invariant i == 0 ==> rows == [] && currentRow == [] && lastY == SENTINEL
      invariant i > 0 ==> lastY == s[i - 1].y && currentRow != [] && Rows(s[..i]) == rows + [currentRow]
    {
      assert s[..i + 1][..i] == s[..i];
      RowsSnoc(s[..i + 1], rows, currentRow);
      assert i == 0 ==> currentRow + [s[i]] == [s[i]];
      if lastY == SENTINEL || Abs(s[i].y - lastY) <= Y_TOLERANCE {
        currentRow := currentRow + [s[i]];
      } else {
        if |currentRow| > 0 { rows := rows + [currentRow]; }
        currentRow := [s[i]];
      }
      lastY := s[i].y;
    }
    assert s[..|s|] == s;
    if |currentRow| > 0 { rows := rows + [currentRow]; }
  }

  /** Rows cut the sorted seats without losing or moving any, and no row is empty. */
  lemma {:induction false} RowsCut(s: seq<Seat>)
    ensures Flatten(Rows(s)) == s
    ensures forall r :: 0 <= r < |Rows(s)| ==> Rows(s)[r] != []
    ensures s != [] ==> var last := Rows(s)[|Rows(s)| - 1]; last[|last| - 1] == s[|s| - 1]
    decreases |s|
  {
    if |s| > 1 {
      var init, v, rows := s[..|s| - 1], s[|s| - 1], Rows(s[..|s| - 1]);
      RowsCut(init);
      assert s == init + [v];
      if Joins(s[|s| - 2].y, v.y) {
        var rows' := Rows(s);
        assert rows'[..|rows'| - 1] == rows[..|rows| - 1];
      } else {
        assert (rows + [[v]])[..|rows|] == rows;
      }
    } else if |s| == 1 {
      assert Flatten([s]) == Flatten([]) + s;
    }
  }

  /** Each seat of the row joins the one before it. */
  ghost predicate Chain(row: seq<Seat>, joins: (real, real) -> bool) {
    |row| <= 1 || (joins(row[|row| - 2].y, row[|row| - 1].y) && Chain(row[..|row| - 1], joins))
  }

  /** Neighbours inside a row join; the end of a row and the start of the next do not. */
  ghost predicate CutBy(rows: seq<seq<Seat>>, joins: (real, real) -> bool) {
    rows == [] ||
    var earlier, last := rows[..|rows| - 1], rows[|rows| - 1];
    && last != [] && Chain(last, joins) && CutBy(earlier, joins)
    && (earlier != [] ==>
          var prior := earlier[|earlier| - 1];
          prior != [] && !joins(prior[|prior| - 1].y, last[0].y))
  }

  lemma {:induction false} ChainReads(row: seq<Seat>, joins: (real, real) -> bool)
    requires Chain(row, joins)
    ensures forall i :: 0 < i < |row| ==> joins(row[i - 1].y, row[i].y)
    decreases |row|
  {
    if |row| > 1 { ChainReads(row[..|row| - 1], joins); }
  }

  /** What CutBy says of any one row and of any two neighbouring rows. */
  lemma {:induction false} CutReads(rows: seq<seq<Seat>>, joins: (real, real) -> bool, r: nat)
    requires CutBy(rows, joins) && r < |rows|
    ensures rows[r] != [] && forall i :: 0 < i < |rows[r]| ==> joins(rows[r][i - 1].y, rows[r][i].y)
    ensures r > 0 ==> rows[r - 1] != [] && !joins(rows[r - 1][|rows[r - 1]| - 1].y, rows[r][0].y)
    decreases |rows|
  {
    if r == |rows| - 1 {
      ChainReads(rows[r], joins);
    } else {
      CutReads(rows[..|rows| - 1], joins, r);
    }
  }

  lemma ChainSnoc(row: seq<Seat>, v: Seat, joins: (real, real) -> bool)
    requires row != []
    ensures Chain(row + [v], joins) <==> Chain(row, joins) && joins(row[|row| - 1].y, v.y)
  {
    assert (row + [v])[..|row|] == row;
  }

  /** Lengthening the last row, or starting a new one, keeps the cut right iff that was the right choice. */
  lemma CutSnoc(earlier: seq<seq<Seat>>, last: seq<Seat>, v: Seat, joins: (real, real) -> bool)
    requires last != []
    ensures CutBy(earlier + [last + [v]], joins) <==> CutBy(earlier + [last], joins) && joins(last[|last| - 1].y, v.y)
    ensures CutBy(earlier + [last] + [[v]], joins)
            <==> CutBy(earlier + [last], joins) && !joins(last[|last| - 1].y, v.y)
  {
    ChainSnoc(last, v, joins);
    assert (earlier + [last + [v]])[..|earlier|] == earlier && (earlier + [last])[..|earlier|] == earlier;
    var rows := earlier + [last];
    assert (rows + [[v]])[..|rows|] == rows;
  }

  lemma LastRow(s: seq<Seat>) returns (earlier: seq<seq<Seat>>, last: seq<Seat>)
    requires s != []
    ensures Rows(s) == earlier + [last] && last != [] && last[|last| - 1] == s[|s| - 1]
  {
    RowsCut(s);
    var rows := Rows(s);
    earlier, last := rows[..|rows| - 1], rows[|rows| - 1];
  }

  /** The last step of Rows, and what it does to a cut by any relation. */
  lemma CutStep(s: seq<Seat>, joins: (real, real) -> bool)
    requires |s| > 1
    ensures var u, v := s[|s| - 2].y, s[|s| - 1].y;
            CutBy(Rows(s), joins) <==> CutBy(Rows(s[..|s| - 1]), joins) && (joins(u, v) <==> Joins(u, v))
  {
    var earlier, last := LastRow(s[..|s| - 1]);
    RowsSnoc(s, earlier, last);
    CutSnoc(earlier, last, s[|s| - 1], joins);
  }

  /** Rows are cut at exactly the places where the grouping test says so. */
  lemma {:induction false} RowsFollowTest(s: seq<Seat>)
    ensures CutBy(Rows(s), Joins)
    decreases |s|
  {
    if |s| > 1 {
      RowsFollowTest(s[..|s| - 1]);
      CutStep(s, Joins);
    }
  }

  // -------------------------------------------------- what the tolerance promises

  /** Within the tolerance, the sentinel left aside. */
  predicate Near(lastY: real, y: real) {
    Abs(y - lastY) <= Y_TOLERANCE
  }

  /** Some seat sits at the sentinel height and the next one in order is farther away than the tolerance. */
  ghost predicate SentinelGap(s: seq<Seat>) {
    exists i :: 0 < i < |s| && s[i - 1].y == SENTINEL && !Near(s[i - 1].y, s[i].y)
  }

  lemma SentinelGapStep(s: seq<Seat>)
    requires |s| > 1
    ensures SentinelGap(s)
            <==> SentinelGap(s[..|s| - 1]) || (s[|s| - 2].y == SENTINEL && !Near(s[|s| - 2].y, s[|s| - 1].y))
  {
    var init, k := s[..|s| - 1], |s| - 1;
    if SentinelGap(s) {
      var i :| 0 < i < |s| && s[i - 1].y == SENTINEL && !Near(s[i - 1].y, s[i].y);
      assert i < k ==> init[i] == s[i] && init[i - 1] == s[i - 1];
    }
    if SentinelGap(init) {
      var i :| 0 < i < |init| && init[i - 1].y == SENTINEL && !Near(init[i - 1].y, init[i].y);
      assert s[i] == init[i] && s[i - 1] == init[i - 1];
    }
    if s[k - 1].y == SENTINEL && !Near(s[k - 1].y, s[k].y) { assert SentinelGap(s); }
  }

  /**
   Seats share a row exactly when each is within the tolerance of the one before, and rows are farther apart,
   if and only if no seat at the sentinel height is followed by a gap.
   */
  lemma {:induction false} RowsSplitAtGapsIff(s: seq<Seat>)
    ensures CutBy(Rows(s), Near) <==> !SentinelGap(s)
    decreases |s|
  {
    if |s| > 1 {
      RowsSplitAtGapsIff(s[..|s| - 1]);
      CutStep(s, Near);
      SentinelGapStep(s);
    }
  }

  /**
   The shift puts the height 7 of the seatmap file on the sentinel: the next row is then swallowed at any distance.
   */
  lemma SeatAtSevenSwallowsNextRow(a: Seat, b: Seat)
    requires a.y == 7.0 && b.y > 8.0
    ensures Rows([Shifted(a), Shifted(b)]) == [[Shifted(a), Shifted(b)]]
    ensures !CutBy(Rows([Shifted(a), Shifted(b)]), Near)
  {
    var s := [Shifted(a), Shifted(b)];
    assert s[..1] == [Shifted(a)];
    RowsSnoc(s, [], [Shifted(a)]);
    assert [Shifted(a)] + [Shifted(b)] == s;
    assert s[0].y == SENTINEL && !Near(s[0].y, s[1].y);
    RowsSplitAtGapsIff(s);
  }

  // ------------------------------------------------------------------- labelling

  function RowLabel(index: nat): nat {
    (65 + index) % CODE_UNITS
  }

  function LabelRow(row: seq<Seat>, index: nat): seq<Labelled> {
    var sorted := Sort(row, ByX);
    seq(|sorted|, i requires 0 <= i < |sorted| => Labelled(sorted[i], RowLabel(index), i + 1))
  }

  function LabelRows(rows: seq<seq<Seat>>, n: nat): seq<Labelled>
    requires n <= |rows|
  {
    if n == 0 then [] else LabelRows(rows, n - 1) + LabelRow(rows[n - 1], n - 1)
  }

  function LabelSection(seats: seq<Seat>): seq<Labelled> {
    var rows := Rows(Sort(seats, ByYThenX));
    LabelRows(rows, |rows|)
  }

  function InSection(seats: seq<Seat>, section: string): seq<Seat> {
    if seats == [] then []
    else
      var earlier := InSection(seats[..|seats| - 1], section);
      if seats[|seats| - 1].section == section then earlier + [seats[|seats| - 1]] else earlier
  }

  /** Section names in order of first appearance. */
  function SectionNames(seats: seq<Seat>): seq<string> {
    if seats == [] then []
    else
      var names := SectionNames(seats[..|seats| - 1]);
      if seats[|seats| - 1].section in names then names else names + [seats[|seats| - 1].section]
  }

  function LabelSections(seats: seq<Seat>, names: seq<string>): seq<Labelled> {
    if names == [] then []
    else LabelSections(seats, names[..|names| - 1]) + LabelSection(InSection(seats, names[|names| - 1]))
  }

  /** The whole enhancement of the shifted seats. */
  function Enhanced(seats: seq<Seat>): seq<Labelled> {
    LabelSections(seats, SectionNames(seats))
  }

  method LabelOneSection(seats: seq<Seat>) returns (out: seq<Labelled>)
    ensures out == LabelSection(seats)
  {
    out := [];
    var rows := GroupRows(Sort(seats, ByYThenX));
    for rowIndex := 0 to |rows|
      invariant out == LabelRows(rows, rowIndex)
    {
      var rowSeats := Sort(rows[rowIndex], ByX);
      var before := out;
      for seatIndex := 0 to |rowSeats|
        invariant out == before + LabelRow(rows[rowIndex], rowIndex)[..seatIndex]
      {
        out := out + [Labelled(rowSeats[seatIndex], RowLabel(rowIndex), seatIndex + 1)];
      }
      assert LabelRow(rows[rowIndex], rowIndex)[..|rowSeats|] == LabelRow(rows[rowIndex], rowIndex);
    }
  }

  lemma InSectionSnoc(seats: seq<Seat>, i: nat, section: string)
    requires i < |seats|
    ensures InSection(seats[..i + 1], section)
            == InSection(seats[..i], section) + if seats[i].section == section then [seats[i]] else []
    ensures SectionNames(seats[..i + 1])
            == var names := SectionNames(seats[..i]);
               if seats[i].section in names then names else names + [seats[i].section]
  {
    assert seats[..i + 1][..i] == seats[..i];
  }

  /** The reduce: seats by section, and the sections in order of first appearance. */
  method GroupSections(seats: seq<Seat>) returns (bySection: map<string, seq<Seat>>, names: seq<string>)
    ensures names == SectionNames(seats)
    ensures forall n :: n in names ==> n in bySection && bySection[n] == InSection(seats, n)
  {
    bySection, names := map[], [];
    for i := 0 to |seats|
      invariant names == SectionNames(seats[..i])
      invariant forall n :: n in bySection <==> n in names
      invariant forall n :: InSection(seats[..i], n) == if n in bySection then bySection[n] else []
    {
      var s := seats[i];
      forall n { InSectionSnoc(seats, i, n); }
      InSectionSnoc(seats, i, s.section);
      if s.section !in bySection {
        bySection := bySection[s.section := []];
        names := names + [s.section];
      }
      bySection := bySection[s.section := bySection[s.section] + [s]];
    }
    assert seats[..|seats|] == seats;
  }

  /** From the seats of the file to the labelled ones. */
  method Enhance(file: seq<Seat>) returns (out: seq<Labelled>)
    ensures out == Enhanced(ShiftedAll(file))
  {
    var seats := ShiftedAll(file);
    var bySection, names := GroupSections(seats);
    out := [];
    for i := 0 to |names|
      invariant out == LabelSections(seats, names[..i])
    {
      assert names[..i + 1][..i] == names[..i];
      var section := LabelOneSection(bySection[names[i]]);
      out := out + section;
    }
    assert names[..|names|] == names;
  }

  // ------------------------------------------------------------------ permutation

  function Seats(out: seq<Labelled>): seq<Seat> {
    seq(|out|, i requires 0 <= i < |out| => out[i].seat)
  }

  lemma SeatsConcat(a: seq<Labelled>, b: seq<Labelled>)
    ensures Seats(a + b) == Seats(a) + Seats(b)
  {}

  lemma OrdersAreOrders()
    ensures IsOrder(ByYThenX) && IsOrder(ByX)
  {}

  lemma {:induction false} LabelRowsPermute(rows: seq<seq<Seat>>, n: nat)
    requires n <= |rows|
    ensures multiset(Seats(LabelRows(rows, n))) == multiset(Flatten(rows[..n]))
  {
    if n > 0 {
      LabelRowsPermute(rows, n - 1);
      OrdersAreOrders();
      SortSorts(rows[n - 1], ByX);
      SeatsConcat(LabelRows(rows, n - 1), LabelRow(rows[n - 1], n - 1));
      assert Seats(LabelRow(rows[n - 1], n - 1)) == Sort(rows[n - 1], ByX);
      assert rows[..n][..n - 1] == rows[..n - 1];
    }
  }

  lemma SectionPermutes(seats: seq<Seat>)
    ensures multiset(Seats(LabelSection(seats))) == multiset(seats)
  {
    OrdersAreOrders();
    SortSorts(seats, ByYThenX);
    var s := Sort(seats, ByYThenX);
    LabelRowsPermute(Rows(s), |Rows(s)|);
    assert Rows(s)[..|Rows(s)|] == Rows(s);
    RowsCut(s);
  }

  lemma {:induction false} InSectionCount(seats: seq<Seat>, section: string, v: Seat)
    ensures multiset(InSection(seats, section))[v] == if v.section == section then multiset(seats)[v] else 0
    decreases |seats|
  {
    if seats != [] {
      InSectionCount(seats[..|seats| - 1], section, v);
      assert seats == seats[..|seats| - 1] + [seats[|seats| - 1]];
    }
  }

  ghost predicate DistinctNames(names: seq<string>) {
    forall i, j :: 0 <= i < j < |names| ==> names[i] != names[j]
  }

  lemma {:induction false} NamesDistinct(seats: seq<Seat>)
    ensures DistinctNames(SectionNames(seats))
    ensures forall v :: v in seats ==> v.section in SectionNames(seats)
    decreases |seats|
  {
    if seats != [] {
      NamesDistinct(seats[..|seats| - 1]);
      assert seats == seats[..|seats| - 1] + [seats[|seats| - 1]];
    }
  }

  lemma {:induction false} SectionsCount(seats: seq<Seat>, names: seq<string>, v: Seat)
    requires DistinctNames(names)
    ensures multiset(Seats(LabelSections(seats, names)))[v] == if v.section in names then multiset(seats)[v] else 0
    decreases |names|
  {
    if names != [] {
      var init, name := names[..|names| - 1], names[|names| - 1];
      assert names == init + [name];
      SectionsCount(seats, init, v);
      InSectionCount(seats, name, v);
      SectionPermutes(InSection(seats, name));
      SeatsConcat(LabelSections(seats, init), LabelSection(InSection(seats, name)));
      assert name !in init;
    }
  }

  /** Every seat comes out labelled exactly once. */
  lemma EnhancedIsPermutation(seats: seq<Seat>)
    ensures multiset(Seats(Enhanced(seats))) == multiset(seats)
  {
    NamesDistinct(seats);
    forall v: Seat ensures multiset(Seats(Enhanced(seats)))[v] == multiset(seats)[v] {
      SectionsCount(seats, SectionNames(seats), v);
      if v !in seats { assert v !in multiset(seats); }
    }
  }

  // -------------------------------------------------------------- rows and labels

  /** Along a labelled row x never decreases and numbers count up from one. */
  lemma RowRunsLeftToRight(row: seq<Seat>, index: nat)
    ensures var l := LabelRow(row, index);
            && |l| == |row|
            && (forall i, j :: 0 <= i < j < |l| ==> l[i].seat.x <= l[j].seat.x)
            && (forall i :: 0 <= i < |l| ==> l[i].number == i + 1 && l[i].row == RowLabel(index))
  {
    OrdersAreOrders();
    SortSorts(row, ByX);
  }

  ghost predicate UniqueInSection(l: seq<Labelled>) {
    forall i, j :: 0 <= i < j < |l| ==> !(l[i].row == l[j].row && l[i].number == l[j].number)
  }

  lemma {:induction false} LabelsOfFirstRows(rows: seq<seq<Seat>>, n: nat)
    requires n <= |rows|
    ensures forall l :: l in LabelRows(rows, n) ==> exists r :: 0 <= r < n && l.row == RowLabel(r)
  {
    if n > 0 {
      LabelsOfFirstRows(rows, n - 1);
      forall l | l in LabelRows(rows, n) ensures exists r :: 0 <= r < n && l.row == RowLabel(r) {
        if l in LabelRows(rows, n - 1) {
          var r :| 0 <= r < n - 1 && l.row == RowLabel(r);
        } else {
          assert l.row == RowLabel(n - 1);
        }
      }
    }
  }

  lemma RowLabelsDiffer(r: nat, t: nat)
    requires r < t < CODE_UNITS
    ensures RowLabel(r) != RowLabel(t)
  {}

  lemma {:induction false} UniqueWithinLimit(rows: seq<seq<Seat>>, n: nat)
    requires n <= |rows| && n <= CODE_UNITS
    ensures UniqueInSection(LabelRows(rows, n))
  {
    if n > 0 {
      UniqueWithinLimit(rows, n - 1);
      LabelsOfFirstRows(rows, n - 1);
      RowRunsLeftToRight(rows[n - 1], n - 1);
      var a, b := LabelRows(rows, n - 1), LabelRow(rows[n - 1], n - 1);
      forall i, j | 0 <= i < |a| && 0 <= j < |b| ensures a[i].row != b[j].row {
        assert a[i] in a;
        var r :| 0 <= r < n - 1 && a[i].row == RowLabel(r);
        RowLabelsDiffer(r, n - 1);
      }
    }
  }

  lemma {:induction false} LabelRowsGrow(rows: seq<seq<Seat>>, r: nat, n: nat)
    requires r <= n <= |rows|
    ensures LabelRows(rows, r) <= LabelRows(rows, n)
    decreases n
  {
    if r < n { LabelRowsGrow(rows, r, n - 1); }
  }

  /** The first label of row r stands right behind the labels of the rows before it. */
  lemma FirstLabelOfRow(rows: seq<seq<Seat>>, r: nat, n: nat) returns (at: nat)
    requires r < n <= |rows| && rows[r] != []
    ensures at == |LabelRows(rows, r)| < |LabelRows(rows, n)|
    ensures LabelRows(rows, n)[at].row == RowLabel(r) && LabelRows(rows, n)[at].number == 1
  {
    at := |LabelRows(rows, r)|;
    RowRunsLeftToRight(rows[r], r);
    LabelRowsGrow(rows, r + 1, n);
    assert LabelRows(rows, n)[at] == LabelRows(rows, r + 1)[at] == LabelRow(rows[r], r)[0];
  }

  /** Labels are unique in a section exactly when it has at most 65536 rows; then the code unit wraps. */
  lemma UniqueIff(rows: seq<seq<Seat>>)
    requires forall r :: 0 <= r < |rows| ==> rows[r] != []
    ensures UniqueInSection(LabelRows(rows, |rows|)) <==> |rows| <= CODE_UNITS
  {
    if |rows| <= CODE_UNITS {
      UniqueWithinLimit(rows, |rows|);
    } else {
      var i := FirstLabelOfRow(rows, 0, |rows|);
      var j := FirstLabelOfRow(rows, CODE_UNITS, |rows|);
      var _ := FirstLabelOfRow(rows, 0, CODE_UNITS);
      assert RowLabel(0) == RowLabel(CODE_UNITS) && i < j;
    }
  }

  ghost predicate UniqueOverall(l: seq<Labelled>) {
    forall i, j :: 0 <= i < j < |l| ==>
      !(l[i].seat.section == l[j].seat.section && l[i].row == l[j].row && l[i].number == l[j].number)
  }

  function RowCount(seats: seq<Seat>, section: string): nat {
    |Rows(Sort(InSection(seats, section), ByYThenX))|
  }

  lemma SectionOfLabels(seats: seq<Seat>, section: string)
    ensures forall l :: l in LabelSection(InSection(seats, section)) ==> l.seat.section == section
  {
    var out := LabelSection(InSection(seats, section));
    SectionPermutes(InSection(seats, section));
    forall l | l in out ensures l.seat.section == section {
      var i :| 0 <= i < |out| && out[i] == l;
      assert Seats(out)[i] == l.seat;
      assert l.seat in multiset(Seats(out));
      InSectionCount(seats, section, l.seat);
    }
  }

  lemma {:induction false} UniqueAcrossSections(seats: seq<Seat>, names: seq<string>)
    requires DistinctNames(names)
    requires forall n :: n in names ==> RowCount(seats, n) <= CODE_UNITS
    ensures UniqueOverall(LabelSections(seats, names))
    ensures forall l :: l in LabelSections(seats, names) ==> l.seat.section in names
    decreases |names|
  {
    if names != [] {
      var init, name := names[..|names| - 1], names[|names| - 1];
      assert names == init + [name];
      UniqueAcrossSections(seats, init);
      SectionOfLabels(seats, name);
      var rows := Rows(Sort(InSection(seats, name), ByYThenX));
      assert RowCount(seats, name) <= CODE_UNITS;
      UniqueWithinLimit(rows, |rows|);
      var a, b := LabelSections(seats, init), LabelSection(InSection(seats, name));
      forall i, j | 0 <= i < |a| && 0 <= j < |b| ensures a[i].seat.section != b[j].seat.section {
        assert a[i] in a && b[j] in b;
      }
    }
  }

  /** Section, row and number name at most one seat, as long as no section has more than 65536 rows. */
  lemma LabelsAreUnique(seats: seq<Seat>)
    requires forall n :: n in SectionNames(seats) ==> RowCount(seats, n) <= CODE_UNITS
    ensures UniqueOverall(Enhanced(seats))
  {
    NamesDistinct(seats);
    UniqueAcrossSections(seats, SectionNames(seats));
  }
}
