/** When paging through the list that the in-memory store sorts shows every row once.

The store sorts the printed times as text, with their zone written out; the cursor comparison writes the
zone the short way.  The two disagree on a time and the same time with more digits. */
module PagingExactness {
  import opened Paging
  import opened Wrappers

  // ----- What a cursor sees of a sorted list -----

  lemma {:induction false} OneOfTwoIsLess(a: string, b: string)
    ensures a == b || Less(a, b) || Less(b, a)
  {
    if a != "" && b != "" && a[0] == b[0] {
      OneOfTwoIsLess(a[1..], b[1..]);
      assert a == [a[0]] + a[1..] && b == [b[0]] + b[1..];
    }
  }

  /** Two sorted rows that the cursor comparison does not keep in order are turned round by it. */
  lemma TurnedRoundIsOlder(a: Row, b: Row)
    requires IsStamp(a.stamp) && IsStamp(b.stamp) && SortsAbove(a, b) && !IsAbove(a, b)
    ensures IsAbove(b, a)
  {
    SortedPairStaysOrderedExactly(a, b);
    NormalizedIsShort(a.stamp);
    NormalizedIsShort(b.stamp);
    OneOfTwoIsLess(a.stamp + "Z", b.stamp + "Z");
    if a.stamp + "Z" == b.stamp + "Z" {
      SuffixIsInjective(a.stamp, b.stamp, "Z");
    }
  }

  /** In a sorted list the longer of two such times stands above the shorter. */
  lemma LongerSortsAbove(a: Row, b: Row)
    requires IsStamp(a.stamp) && IsStamp(b.stamp) && SortsAbove(a, b)
    ensures !(a.stamp < b.stamp)
  {
    if a.stamp < b.stamp {
      var rest := b.stamp[|a.stamp|..];
      assert b.stamp == a.stamp + rest;
      ShorterStampTurnsRound(rest);
      LessUnderPrefix(a.stamp, "+00:00", rest + "+00:00");
      assert a.stamp + (rest + "+00:00") == a.stamp + rest + "+00:00";
      LessIsStrict(a.CreatedAt(), b.CreatedAt());
    }
  }

  /** What After filters in: below the cursor all but the times its own extends, above it just those that
  extend its own. */
  lemma CursorSeesExactly(list: seq<Row>, at: nat, k: nat)
    requires IsSorted(list) && HasStamps(list) && at < |list| && k < |list|
    ensures IsOlder(list[k], list[at].ToCursor()) <==>
              if k > at then !Extends(list, at, k) else k < at && Extends(list, k, at)
  {
    assert IsStamp(list[at].stamp) && IsStamp(list[k].stamp);
    if k > at {
      assert SortsAbove(list[at], list[k]);
      CursorSeesBelow(list[at], list[k]);
    } else if k < at {
      assert SortsAbove(list[k], list[at]);
      CursorSeesAbove(list[at], list[k]);
    } else {
      AboveIsStrict(list[at], list[at]);
    }
  }

  lemma CursorSeesBelow(row: Row, below: Row)
    requires IsStamp(row.stamp) && IsStamp(below.stamp) && SortsAbove(row, below)
    ensures IsOlder(below, row.ToCursor()) <==> !(below.stamp < row.stamp)
  {
    SortedPairStaysOrderedExactly(row, below);
    LongerSortsAbove(row, below);
  }

  lemma CursorSeesAbove(row: Row, above: Row)
    requires IsStamp(row.stamp) && IsStamp(above.stamp) && SortsAbove(above, row)
    ensures IsOlder(above, row.ToCursor()) <==> row.stamp < above.stamp
  {
    SortedPairStaysOrderedExactly(above, row);
    LongerSortsAbove(above, row);
    if !IsAbove(above, row) {
      TurnedRoundIsOlder(above, row);
    }
    AboveIsStrict(above, row);
    AboveIsStrict(row, above);
  }

  // ----- When the walk is right -----

  /** No other time in the list is this row's with more or fewer digits. */
  predicate IsClean(list: seq<Row>, at: nat)
    requires at < |list|
  {
    forall k {:trigger Extends(list, at, k)} {:trigger Extends(list, k, at)} ::
      0 <= k < |list| ==> !Extends(list, at, k) && !Extends(list, k, at)
  }

  /** Every row that ends a page and has rows behind it is clean, for the pages from this index on. */
  predicate PageEndsAreClean(list: seq<Row>, start: nat)
    decreases |list| - start
  {
    start + PAGE_SIZE < |list| ==>
      IsClean(list, start + PAGE_SIZE - 1) && PageEndsAreClean(list, start + PAGE_SIZE)
  }

  lemma CleanCursorSplits(list: seq<Row>, at: nat)
    requires IsSorted(list) && HasStamps(list) && at < |list| && IsClean(list, at)
    ensures OlderThan(list, list[at].ToCursor()) == list[at + 1..]
  {
    var cursor := list[at].ToCursor();
    forall k | 0 <= k < |list| ensures IsOlder(list[k], cursor) <==> at + 1 <= k {
      CursorSeesExactly(list, at, k);
    }
    FilterDropsPrefix(list, row => IsOlder(row, cursor), at + 1);
  }

  lemma {:induction false} PrefixIsBetween(x: string, y: string, z: string)
    requires IsStamp(x) && IsStamp(y) && IsStamp(z) && x < z
    requires x == y || Less(x + "+00:00", y + "+00:00")
    requires y == z || Less(y + "+00:00", z + "+00:00")
    ensures x <= y
    decreases |x|
  {
    if x != "" {
      if y == "" {
        ShorterStampTurnsRound(x);
        LessIsStrict("+00:00", x + "+00:00");
      } else {
        SuffixKeepsOrder(x, y, "+00:00");
        SuffixKeepsOrder(y, z, "+00:00");
        assert x[0] == z[0] == y[0];
        assert x == [x[0]] + x[1..] && y == [y[0]] + y[1..] && z == [z[0]] + z[1..];
        PrefixIsBetween(x[1..], y[1..], z[1..]);
      }
    }
  }

  lemma StampBetween(list: seq<Row>, low: nat, mid: nat, high: nat)
    requires IsSorted(list) && HasStamps(list) && high < mid < low < |list| && Extends(list, high, low)
    ensures list[low].stamp <= list[mid].stamp
  {
    assert IsStamp(list[low].stamp) && IsStamp(list[mid].stamp) && IsStamp(list[high].stamp);
    assert SortsAbove(list[high], list[mid]) && SortsAbove(list[mid], list[low]);
    if list[mid].CreatedAt() == list[low].CreatedAt() {
      SuffixIsInjective(list[mid].stamp, list[low].stamp, "+00:00");
    }
    if list[high].CreatedAt() == list[mid].CreatedAt() {
      SuffixIsInjective(list[high].stamp, list[mid].stamp, "+00:00");
    }
    PrefixIsBetween(list[low].stamp, list[mid].stamp, list[high].stamp);
  }

  lemma {:induction false} LessUnderPrefix(prefix: string, x: string, y: string)
    ensures Less(prefix + x, prefix + y) <==> Less(x, y)
  {
    if prefix == "" {
      assert prefix + x == x && prefix + y == y;
    } else {
      LessUnderPrefix(prefix[1..], x, y);
      assert (prefix + x)[1..] == prefix[1..] + x && (prefix + y)[1..] == prefix[1..] + y;
    }
  }

  lemma SortedRowsDiffer(list: seq<Row>, i: nat, j: nat)
    requires IsSorted(list) && i < j < |list|
    ensures list[i] != list[j]
  {
    assert SortsAbove(list[i], list[j]);
    LessIsStrict(list[i].CreatedAt(), list[i].CreatedAt());
    LessIsStrict(list[i].code, list[i].code);
  }

  lemma {:induction false} FilterStartsBy(rows: seq<Row>, keeps: Row -> bool, k: nat) returns (first: nat)
    requires k < |rows| && keeps(rows[k])
    ensures first <= k && Filter(rows, keeps) != [] && Filter(rows, keeps)[0] == rows[first]
  {
    first := 0;
    if !keeps(rows[0]) {
      var later := FilterStartsBy(rows[1..], keeps, k - 1);
      first := later + 1;
    }
  }

  lemma {:induction false} FilterIsFrom(rows: seq<Row>, keeps: Row -> bool)
    ensures forall row :: row in Filter(rows, keeps) ==> row in rows
  {
    if rows != [] {
      FilterIsFrom(rows[1..], keeps);
      assert rows == [rows[0]] + rows[1..];
    }
  }

  lemma FilterStarts(first: Row, rest: seq<Row>, keeps: Row -> bool)
    ensures Filter([first] + rest, keeps) == (if keeps(first) then [first] else []) + Filter(rest, keeps)
  {
    assert ([first] + rest)[1..] == rest;
  }

  lemma {:induction false} FilterSkips(rows: seq<Row>, rest: seq<Row>, keeps: Row -> bool)
    requires forall row :: row in rows ==> !keeps(row)
    ensures Filter(rows + rest, keeps) == Filter(rest, keeps)
  {
    if rows == [] {
      assert rows + rest == rest;
    } else {
      FilterSkips(rows[1..], rest, keeps);
      assert rows + rest == [rows[0]] + (rows[1..] + rest);
      FilterStarts(rows[0], rows[1..] + rest, keeps);
    }
  }

  lemma {:induction false} FilterTakes(rows: seq<Row>, rest: seq<Row>, keeps: Row -> bool)
    requires forall row :: row in rows ==> keeps(row)
    ensures Filter(rows + rest, keeps) == rows + Filter(rest, keeps)
  {
    if rows == [] {
      assert rows + rest == rest;
    } else {
      FilterTakes(rows[1..], rest, keeps);
      assert rows + rest == [rows[0]] + (rows[1..] + rest);
      FilterStarts(rows[0], rows[1..] + rest, keeps);
    }
  }

  lemma FilterOfPieces(below: seq<Row>, kept: seq<Row>, gap: Row, behind: seq<Row>, keeps: Row -> bool)
    requires !keeps(gap) && (forall row :: row in below ==> !keeps(row)) && (forall row :: row in kept ==> keeps(row))
    ensures Filter(below + (kept + ([gap] + behind)), keeps) == kept + Filter(behind, keeps)
  {
    FilterSkips(below, kept + ([gap] + behind), keeps);
    FilterTakes(kept, [gap] + behind, keeps);
    FilterStarts(gap, behind, keeps);
  }

  lemma PiecesMakeAll<T>(s: seq<T>, low: nat, high: nat)
    requires low <= high < |s|
    ensures s == s[..low] + (s[low..high] + ([s[high]] + s[high + 1..]))
  {
  }

  /** Rows below `low` are dropped, those up to `high` kept and the one there dropped. */
  lemma FilterHasGap(rows: seq<Row>, keeps: Row -> bool, low: nat, high: nat)
    requires low <= high < |rows| && !keeps(rows[high])
    requires forall i :: 0 <= i < high ==> (keeps(rows[i]) <==> low <= i)
    ensures Filter(rows, keeps) == rows[low..high] + Filter(rows[high + 1..], keeps)
  {
    var below, kept := rows[..low], rows[low..high];
    assert forall i :: 0 <= i < |below| ==> !keeps(below[i]);
    assert forall i :: 0 <= i < |kept| ==> keeps(kept[i]);
    FilterOfPieces(below, kept, rows[high], rows[high + 1..], keeps);
    PiecesMakeAll(rows, low, high);
  }

  lemma {:induction false} FirstExtended(list: seq<Row>, at: nat, k: nat) returns (gap: nat)
    requires at < k < |list| && Extends(list, at, k)
    ensures IsFirstGap(list, at, gap)
    decreases k
  {
    gap := k;
    if i: nat :| at < i < k && Extends(list, at, i) {
      gap := FirstExtended(list, at, i);
    }
  }

  /** What a walk shows that starts behind a cursor with these rows below it. */
  predicate StartsWith(shown: Option<seq<Row>>, older: seq<Row>) {
    if |older| <= PAGE_SIZE then shown == Some(older) else shown.Some? ==> older[..PAGE_SIZE] <= shown.value
  }

  lemma WalkStartsWith(list: seq<Row>, cursor: Cursor, pages: nat)
    ensures StartsWith(Walk(list, After(cursor), pages), OlderThan(list, cursor))
  {
  }

  lemma OtherFirstRow(shown: Option<seq<Row>>, older: seq<Row>, wanted: seq<Row>)
    requires StartsWith(shown, older) && older != [] && wanted != [] && older[0] != wanted[0]
    ensures shown != Some(wanted)
  {
    if |older| > PAGE_SIZE && shown.Some? {
      assert older[..PAGE_SIZE][0] == older[0];
    }
  }

  lemma GapOnFirstPage(shown: Option<seq<Row>>, wanted: seq<Row>, gap: nat, rest: seq<Row>)
    requires gap < |wanted| && gap < PAGE_SIZE && StartsWith(shown, wanted[..gap] + rest)
    requires forall row :: row in rest ==> row != wanted[gap]
    ensures shown != Some(wanted)
  {
    var older := wanted[..gap] + rest;
    if rest != [] {
      assert older[gap] == rest[0] && rest[0] in rest;
      if |older| > PAGE_SIZE && shown.Some? {
        assert older[..PAGE_SIZE][gap] == rest[0];
        assert shown.value[gap] == rest[0];
      }
    }
  }

  lemma GapBehindFirstPage(shown: Option<seq<Row>>, wanted: seq<Row>, gap: nat, rest: seq<Row>)
    requires PAGE_SIZE <= gap < |wanted| && StartsWith(shown, wanted[..gap] + rest) && shown == Some(wanted)
    ensures |wanted[..gap] + rest| > PAGE_SIZE && (wanted[..gap] + rest)[..PAGE_SIZE] == wanted[..PAGE_SIZE]
  {
  }

  lemma LongWalkGoesOn(list: seq<Row>, cursor: Cursor, pages: nat, wanted: seq<Row>)
    requires |OlderThan(list, cursor)| > PAGE_SIZE && |wanted| >= PAGE_SIZE
    requires OlderThan(list, cursor)[..PAGE_SIZE] == wanted[..PAGE_SIZE]
    requires Walk(list, After(cursor), pages) == Some(wanted)
    ensures pages > 0
         && Walk(list, After(wanted[PAGE_SIZE - 1].ToCursor()), pages - 1) == Some(wanted[PAGE_SIZE..])
  {
    var older := OlderThan(list, cursor);
    assert older[..PAGE_SIZE][PAGE_SIZE - 1] == wanted[PAGE_SIZE - 1] == older[PAGE_SIZE - 1];
    var page, rest := wanted[..PAGE_SIZE], wanted[PAGE_SIZE..];
    WalkContinues(list, After(cursor), wanted[PAGE_SIZE - 1].ToCursor(), pages, page, rest);
    assert wanted == wanted[..PAGE_SIZE] + wanted[PAGE_SIZE..];
  }

  /** A time that extends the cursor's is shown again first. */
  lemma RepeatedRowSpoilsWalk(list: seq<Row>, at: nat, k: nat, pages: nat)
    requires IsSorted(list) && HasStamps(list) && k < at < |list| - 1 && Extends(list, k, at)
    ensures Walk(list, After(list[at].ToCursor()), pages) != Some(list[at + 1..])
  {
    var cursor := list[at].ToCursor();
    CursorSeesExactly(list, at, k);
    var first := FilterStartsBy(list, row => IsOlder(row, cursor), k);
    SortedRowsDiffer(list, first, at + 1);
    WalkStartsWith(list, cursor, pages);
    OtherFirstRow(Walk(list, After(cursor), pages), OlderThan(list, cursor), list[at + 1..]);
  }

  /** What After gives when the first time that the cursor's extends stands at `gap`. */
  lemma OlderHasGap(list: seq<Row>, at: nat, gap: nat) returns (rest: seq<Row>)
    requires IsSorted(list) && HasStamps(list) && IsFirstGap(list, at, gap) && NoneAboveExtends(list, at)
    ensures OlderThan(list, list[at].ToCursor()) == list[at + 1..gap] + rest
    ensures forall row :: row in rest ==> row != list[gap]
  {
    var cursor := list[at].ToCursor();
    var keeps := row => IsOlder(row, cursor);
    forall k | 0 <= k <= gap ensures keeps(list[k]) <==> at + 1 <= k < gap {
      CursorSeesUpToGap(list, at, gap, k);
    }
    FilterHasGap(list, keeps, at + 1, gap);
    rest := Filter(list[gap + 1..], keeps);
    FilterIsFrom(list[gap + 1..], keeps);
    RowsBelowDiffer(list, gap, rest);
  }

  lemma CursorSeesUpToGap(list: seq<Row>, at: nat, gap: nat, k: nat)
    requires IsSorted(list) && HasStamps(list) && IsFirstGap(list, at, gap) && NoneAboveExtends(list, at) && k <= gap
    ensures IsOlder(list[k], list[at].ToCursor()) <==> at + 1 <= k < gap
  {
    CursorSeesExactly(list, at, k);
  }

  lemma RowsBelowDiffer(list: seq<Row>, at: nat, kept: seq<Row>)
    requires IsSorted(list) && at < |list| && forall row :: row in kept ==> row in list[at + 1..]
    ensures forall row :: row in kept ==> row != list[at]
  {
    var below := list[at + 1..];
    forall row | row in kept ensures row != list[at] {
      var j :| 0 <= j < |below| && below[j] == row;
      SortedRowsDiffer(list, at, at + 1 + j);
    }
  }

  predicate NoneAboveExtends(list: seq<Row>, at: nat)
    requires at < |list|
  {
    forall k {:trigger Extends(list, k, at)} :: 0 <= k < at ==> !Extends(list, k, at)
  }

  /** The first row below whose time the cursor's extends. */
  predicate IsFirstGap(list: seq<Row>, at: nat, gap: nat) {
    && at < gap < |list| && Extends(list, at, gap)
    && forall k {:trigger Extends(list, at, k)} :: at < k < gap ==> !Extends(list, at, k)
  }

  /** A gap behind the next page is still ahead where that page ends. */
  lemma GapStaysAhead(list: seq<Row>, at: nat, gap: nat)
    requires IsSorted(list) && HasStamps(list) && IsFirstGap(list, at, gap) && at + PAGE_SIZE < gap
    ensures !IsClean(list, at + PAGE_SIZE)
  {
    var later := at + PAGE_SIZE;
    StampBetween(list, gap, later, at);
    assert !Extends(list, at, later);
    assert Extends(list, later, gap);
  }

  lemma NearGapSpoilsWalk(list: seq<Row>, at: nat, gap: nat, pages: nat)
    requires IsSorted(list) && HasStamps(list) && IsFirstGap(list, at, gap) && NoneAboveExtends(list, at)
    requires gap - at - 1 < PAGE_SIZE
    ensures Walk(list, After(list[at].ToCursor()), pages) != Some(list[at + 1..])
  {
    var cursor, wanted, d := list[at].ToCursor(), list[at + 1..], gap - at - 1;
    var rest := OlderHasGap(list, at, gap);
    WalkStartsWith(list, cursor, pages);
    assert wanted[..d] == list[at + 1..gap] && wanted[d] == list[gap];
    GapOnFirstPage(Walk(list, After(cursor), pages), wanted, d, rest);
  }

  lemma FarGapGoesOn(list: seq<Row>, at: nat, gap: nat, pages: nat)
    requires IsSorted(list) && HasStamps(list) && IsFirstGap(list, at, gap) && NoneAboveExtends(list, at)
    requires gap - at - 1 >= PAGE_SIZE
    requires Walk(list, After(list[at].ToCursor()), pages) == Some(list[at + 1..])
    ensures pages > 0
         && Walk(list, After(list[at + PAGE_SIZE].ToCursor()), pages - 1) == Some(list[at + PAGE_SIZE + 1..])
  {
    var cursor, wanted, d := list[at].ToCursor(), list[at + 1..], gap - at - 1;
    var rest := OlderHasGap(list, at, gap);
    WalkStartsWith(list, cursor, pages);
    assert wanted[..d] == list[at + 1..gap];
    GapBehindFirstPage(Some(wanted), wanted, d, rest);
    LongWalkGoesOn(list, cursor, pages, wanted);
    assert wanted[PAGE_SIZE - 1] == list[at + PAGE_SIZE] && wanted[PAGE_SIZE..] == list[at + PAGE_SIZE + 1..];
  }

  /** Behind an unclean row the walk never gives the rest of the list. */
  lemma {:induction false} UncleanRowSpoilsWalk(list: seq<Row>, at: nat, pages: nat)
    requires IsSorted(list) && HasStamps(list) && at < |list| - 1 && !IsClean(list, at)
    ensures Walk(list, After(list[at].ToCursor()), pages) != Some(list[at + 1..])
    decreases |list| - at
  {
    if !NoneAboveExtends(list, at) {
      var k: nat :| k < at && Extends(list, k, at);
      RepeatedRowSpoilsWalk(list, at, k, pages);
    } else {
      var gap := FirstGapExists(list, at);
      if gap - at - 1 < PAGE_SIZE {
        NearGapSpoilsWalk(list, at, gap, pages);
      } else if Walk(list, After(list[at].ToCursor()), pages) == Some(list[at + 1..]) {
        FarGapGoesOn(list, at, gap, pages);
        GapStaysAhead(list, at, gap);
        var later := at + PAGE_SIZE;
        UncleanRowSpoilsWalk(list, later, pages - 1);
      }
    }
  }

  lemma FirstGapExists(list: seq<Row>, at: nat) returns (gap: nat)
    requires IsSorted(list) && HasStamps(list) && at < |list| && !IsClean(list, at) && NoneAboveExtends(list, at)
    ensures IsFirstGap(list, at, gap)
  {
    var k: nat :| k < |list| && (Extends(list, at, k) || Extends(list, k, at));
    assert IsStamp(list[at].stamp) && IsStamp(list[k].stamp);
    if k < at {
      assert SortsAbove(list[k], list[at]);
      LongerSortsAbove(list[k], list[at]);
    } else {
      assert k > at && SortsAbove(list[at], list[k]);
      LongerSortsAbove(list[at], list[k]);
      gap := FirstExtended(list, at, k);
    }
  }

  lemma {:induction false} AfterIsRightExactly(list: seq<Row>, at: nat, pages: nat)
    requires IsSorted(list) && HasStamps(list) && at < |list| - 1 && pages + at + 1 >= |list|
    ensures Walk(list, After(list[at].ToCursor()), pages) == Some(list[at + 1..]) <==>
            IsClean(list, at) && PageEndsAreClean(list, at + 1)
    decreases |list| - at
  {
    if !IsClean(list, at) {
      UncleanRowSpoilsWalk(list, at, pages);
    } else {
      CleanCursorSplits(list, at);
      SplitCursorStep(list, at, pages);
      if at + 1 + PAGE_SIZE < |list| {
        AfterIsRightExactly(list, at + PAGE_SIZE, pages - 1);
      }
    }
  }

  lemma WalkIsRightFromFirst(list: seq<Row>, start: nat, pages: nat)
    requires IsSorted(list) && HasStamps(list) && start == 0 && pages >= |list|
    ensures Walk(list, First, pages) == Some(list) <==> PageEndsAreClean(list, start)
  {
    FirstPageStep(list, pages);
    if PAGE_SIZE < |list| {
      AfterIsRightExactly(list, start + PAGE_SIZE - 1, pages - 1);
    }
  }

  function PageEnd(page: nat): nat {
    page * PAGE_SIZE + PAGE_SIZE - 1
  }

  lemma {:induction false} CleanPageEnds(list: seq<Row>, page: nat)
    ensures PageEndsAreClean(list, page * PAGE_SIZE) <==>
            forall p: nat :: page <= p && PageEnd(p) < |list| - 1 ==> IsClean(list, PageEnd(p))
    decreases |list| - page * PAGE_SIZE
  {
    if PageEnd(page) < |list| - 1 {
      CleanPageEnds(list, page + 1);
      assert (page + 1) * PAGE_SIZE == page * PAGE_SIZE + PAGE_SIZE;
    }
  }

  /** Over any list the store sorts, following next shows every row exactly once, in order, exactly when no
  row that ends a page with more rows behind it has a time that is another's with more or fewer digits. */
  lemma WalkIsRightExactly(list: seq<Row>)
    requires IsSorted(list) && HasStamps(list)
    ensures Walk(list, First, |list|) == Some(list) <==>
            forall page: nat :: PageEnd(page) < |list| - 1 ==> IsClean(list, PageEnd(page))
  {
    var first: nat := 0;
    WalkIsRightFromFirst(list, first * PAGE_SIZE, |list|);
    CleanPageEnds(list, first);
  }

  // ----- Both failures occur -----

  /** The rows of a list, with these times behind a common start. */
  predicate HasTails(list: seq<Row>, prefix: string, tails: seq<string>) {
    && |list| == |tails|
    && forall i :: 0 <= i < |list| ==> list[i].stamp == prefix + tails[i]
  }

  /** The times descend from the first character on, except that "1.500" may stand above "1". */
  predicate Descend(tails: seq<string>) {
    forall i, j :: 0 <= i < j < |tails| ==>
      tails[i] != "" && tails[j] != "" && (tails[j][0] < tails[i][0] || (tails[i] == "1.500" && tails[j] == "1"))
  }

  lemma HeadDecides(x: string, y: string)
    requires x != "" && y != "" && x[0] < y[0]
    ensures Less(x, y)
  {
  }

  lemma HigherTailIsLater(prefix: string, a: string, b: string, suffix: string)
    requires a != "" && b != "" && b[0] < a[0]
    ensures Less(prefix + (b + suffix), prefix + (a + suffix))
  {
    HeadDecides(b + suffix, a + suffix);
    LessUnderPrefix(prefix, b + suffix, a + suffix);
  }

  lemma LongerTailIsLater(time: string, more: string)
    requires IsStamp(more) && more != ""
    ensures Less(time + "+00:00", time + more + "+00:00")
  {
    ShorterStampTurnsRound(more);
    LessUnderPrefix(time, "+00:00", more + "+00:00");
    assert time + more + "+00:00" == time + (more + "+00:00");
  }

  lemma OtherTailsDiffer(prefix: string, a: string, b: string)
    requires a != "" && b != "" && a[0] != b[0]
    ensures !(prefix + a < prefix + b) && !(prefix + b < prefix + a)
  {
    assert (prefix + a)[|prefix|] == a[0] && (prefix + b)[|prefix|] == b[0];
  }

  lemma DescendingTailsSort(list: seq<Row>, prefix: string, tails: seq<string>)
    requires HasTails(list, prefix, tails) && Descend(tails)
    ensures IsSorted(list)
  {
    forall i, j | 0 <= i < j < |list| ensures SortsAbove(list[i], list[j]) {
      var a, b := tails[i], tails[j];
      assert a != "" && b != "";
      if b[0] < a[0] {
        HigherTailIsLater(prefix, a, b, "+00:00");
        assert prefix + b + "+00:00" == prefix + (b + "+00:00") && prefix + a + "+00:00" == prefix + (a + "+00:00");
      } else {
        LongerTailIsLater(prefix + "1", ".500");
        assert prefix + "1.500" == prefix + "1" + ".500";
      }
    }
  }

  lemma TailsAreStamps(list: seq<Row>, prefix: string, tails: seq<string>)
    requires HasTails(list, prefix, tails) && IsStamp(prefix) && forall i :: 0 <= i < |tails| ==> IsStamp(tails[i])
    ensures HasStamps(list)
  {
  }

  function RowsWith(prefix: string, tails: seq<string>, codes: seq<string>): (list: seq<Row>)
    requires |tails| == |codes|
    ensures HasTails(list, prefix, tails)
  {
    seq(|tails|, i requires 0 <= i < |tails| => Row(prefix + tails[i], codes[i]))
  }

  /** The fifth of five workshops created within four seconds is never shown. */
  lemma SkippedRowExists(prefix: string, codes: seq<string>) returns (list: seq<Row>)
    requires IsStamp(prefix) && |codes| == PAGE_SIZE + 1
    ensures IsSorted(list) && HasStamps(list) && |list| == PAGE_SIZE + 1
    ensures forall pages: nat :: pages > 0 ==> Walk(list, First, pages) == Some(list[..PAGE_SIZE])
  {
    var tails := ["4", "3", "2", "1.500", "1"];
    list := RowsWith(prefix, tails, codes);
    DescendingTailsSort(list, prefix, tails);
    TailsAreStamps(list, prefix, tails);
    var cursor := list[3].ToCursor();
    assert prefix + "1.500" == prefix + "1" + ".500";
    CursorSeesExactly(list, 3, 4);
    CursorSeesExactly(list, 3, 3);
    forall k | 0 <= k < 3 ensures !IsOlder(list[k], cursor) {
      CursorSeesExactly(list, 3, k);
      OtherTailsDiffer(prefix, tails[k], tails[3]);
    }
    FilterDropsPrefix(list, row => IsOlder(row, cursor), |list|);
    assert OlderThan(list, cursor) == [];
    FiveRowsWalk(list, []);
  }

  lemma CursorRepeatsThird(list: seq<Row>)
    requires IsSorted(list) && HasStamps(list) && |list| == PAGE_SIZE + 1
    requires forall k {:trigger Extends(list, k, 3)} :: 0 <= k < 3 ==> (Extends(list, k, 3) <==> k == 2)
    requires !Extends(list, 3, 4)
    ensures OlderThan(list, list[3].ToCursor()) == [list[2], list[4]]
  {
    var cursor := list[3].ToCursor();
    forall k | 0 <= k < |list| ensures IsOlder(list[k], cursor) <==> k == 2 || k == 4 {
      CursorSeesExactly(list, 3, k);
    }
    FilterHasGap(list, row => IsOlder(row, cursor), 2, 3);
    FilterDropsPrefix(list[4..], row => IsOlder(row, cursor), 0);
  }

  /** The third of five such workshops is shown twice. */
  lemma RepeatedRowExists(prefix: string, codes: seq<string>) returns (list: seq<Row>)
    requires IsStamp(prefix) && |codes| == PAGE_SIZE + 1
    ensures IsSorted(list) && HasStamps(list) && |list| == PAGE_SIZE + 1
    ensures forall pages: nat :: pages > 0 ==>
              Walk(list, First, pages) == Some(list[..PAGE_SIZE] + [list[2], list[4]])
  {
    var tails := ["4", "3", "1.500", "1", "0"];
    list := RowsWith(prefix, tails, codes);
    DescendingTailsSort(list, prefix, tails);
    TailsAreStamps(list, prefix, tails);
    assert prefix + "1.500" == prefix + "1" + ".500";
    OtherTailsDiffer(prefix, tails[4], tails[3]);
    OtherTailsDiffer(prefix, tails[0], tails[3]);
    OtherTailsDiffer(prefix, tails[1], tails[3]);
    CursorRepeatsThird(list);
    FiveRowsWalk(list, [list[2], list[4]]);
  }

  lemma FiveRowsWalk(list: seq<Row>, older: seq<Row>)
    requires |list| == PAGE_SIZE + 1 && OlderThan(list, list[PAGE_SIZE - 1].ToCursor()) == older
    requires |older| <= PAGE_SIZE
    ensures forall pages: nat :: pages > 0 ==> Walk(list, First, pages) == Some(list[..PAGE_SIZE] + older)
    ensures older == [] ==> list[..PAGE_SIZE] + older == list[..PAGE_SIZE]
  {
    var cursor := list[PAGE_SIZE - 1].ToCursor();
    forall pages: nat | pages > 0 ensures Walk(list, First, pages) == Some(list[..PAGE_SIZE] + older) {
      assert Respond(list, First).rows == list[..PAGE_SIZE] && Respond(list, First).next == Some(cursor);
      assert Walk(list, After(cursor), pages - 1) == Some(older);
      WalkGoesOn(list, First, cursor, pages);
    }
  }
}
