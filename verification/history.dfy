/** The rolling history of daily collections: saving a day's rows replaces
    whatever was stored for that day, keeps 30 days, and keeps one row per
    instance and date; and the day-over-day trends of CPU, RAM and disk
    against the previous day's rows. */
module History {
  import opened Options
  import opened SeqUtil
  import opened MonthlyAnalysis

  /** The de-duplication key of a history row: its instance ID and date. */
  function Key(row: Row): (string, int) {
    (row.id, row.date)
  }

  function Keys(rows: seq<Row>): (keys: seq<(string, int)>)
    ensures |keys| == |rows|
    ensures forall i :: 0 <= i < |rows| ==> keys[i] == Key(rows[i])
  {
    if rows == [] then [] else [Key(rows[0])] + Keys(rows[1..])
  }

  lemma KeysAppend(xs: seq<Row>, ys: seq<Row>)
    ensures Keys(xs + ys) == Keys(xs) + Keys(ys)
  {
  }

  /** No later row shares the key of row `i`. */
  predicate LastOfKey(rows: seq<Row>, i: nat)
    requires i < |rows|
  {
    forall j :: i < j < |rows| ==> Key(rows[j]) != Key(rows[i])
  }

  /** The rows of every day except `day`, in order. */
  function NotOn(rows: seq<Row>, day: int): (kept: seq<Row>)
    ensures forall r :: r in kept <==> r in rows && r.date != day
  {
    if rows == [] then []
    else
      var rest := NotOn(rows[1..], day);
      assert forall r :: r in rows ==> r == rows[0] || r in rows[1..];
      if rows[0].date != day then [rows[0]] + rest else rest
  }

  /** pandas' `drop_duplicates(subset=[ID, Date], keep='last')`: of the rows
      sharing a key only the last survives, and the survivors keep their
      order. */
  function DropDuplicates(rows: seq<Row>): (kept: seq<Row>)
    ensures |kept| <= |rows|
    ensures forall x :: x in kept ==> x in rows
  {
    if rows == [] then []
    else
      var rest := DropDuplicates(rows[1..]);
      if Key(rows[0]) in Keys(rows[1..]) then rest else [rows[0]] + rest
  }

  /** Exactly one row per key survives, and every key of the input does. */
  lemma {:induction false} DropDuplicatesKeys(rows: seq<Row>)
    ensures NoDuplicates(Keys(DropDuplicates(rows)))
    ensures forall k :: k in Keys(DropDuplicates(rows)) <==> k in Keys(rows)
  {
    if rows != [] {
      var tail := rows[1..];
      var rest := DropDuplicates(tail);
      DropDuplicatesKeys(tail);
      assert Keys(rows) == [Key(rows[0])] + Keys(tail);
      if Key(rows[0]) !in Keys(tail) {
        assert Keys(DropDuplicates(rows)) == [Key(rows[0])] + Keys(rest);
      }
    }
  }

  lemma LastOfKeyTail(rows: seq<Row>, i: nat)
    requires 0 < i < |rows|
    ensures LastOfKey(rows, i) <==> LastOfKey(rows[1..], i - 1)
  {
    var tail := rows[1..];
    if LastOfKey(rows, i) {
      forall j | i - 1 < j < |tail|
        ensures Key(tail[j]) != Key(tail[i - 1])
      {
        assert tail[j] == rows[j + 1];
      }
    }
    if LastOfKey(tail, i - 1) {
      forall j | i < j < |rows|
        ensures Key(rows[j]) != Key(rows[i])
      {
        assert rows[j] == tail[j - 1];
      }
    }
  }

  /** The first row is the last of its key exactly when no later row has
      its key. */
  lemma LastOfKeyHead(rows: seq<Row>)
    requires rows != []
    ensures LastOfKey(rows, 0) <==> Key(rows[0]) !in Keys(rows[1..])
  {
    var tail := rows[1..];
    if Key(rows[0]) in Keys(tail) {
      var j :| 0 <= j < |tail| && Keys(tail)[j] == Key(rows[0]);
      assert Key(rows[j + 1]) == Key(rows[0]);
    } else {
      forall j | 0 < j < |rows|
        ensures Key(rows[j]) != Key(rows[0])
      {
        assert Keys(tail)[j - 1] == Key(rows[j]);
      }
    }
  }

  /** The survivors are exactly the rows that are last of their key. */
  lemma {:induction false} DropDuplicatesKeepsLast(rows: seq<Row>)
    ensures forall i :: 0 <= i < |rows| && LastOfKey(rows, i) ==> rows[i] in DropDuplicates(rows)
    ensures forall x :: x in DropDuplicates(rows) ==>
              exists i :: 0 <= i < |rows| && rows[i] == x && LastOfKey(rows, i)
  {
    if rows != [] {
      var tail := rows[1..];
      var rest := DropDuplicates(tail);
      DropDuplicatesKeepsLast(tail);
      LastOfKeyHead(rows);
      forall i | 0 < i < |rows| && LastOfKey(rows, i)
        ensures rows[i] in DropDuplicates(rows)
      {
        LastOfKeyTail(rows, i);
        assert tail[i - 1] == rows[i];
      }
      forall x | x in rest
        ensures exists i :: 0 <= i < |rows| && rows[i] == x && LastOfKey(rows, i)
      {
        var i :| 0 <= i < |tail| && tail[i] == x && LastOfKey(tail, i);
        LastOfKeyTail(rows, i + 1);
        assert rows[i + 1] == x;
      }
    }
  }

  /** Rows whose keys are disjoint de-duplicate independently. */
  lemma {:induction false} DropDuplicatesAppendDisjoint(xs: seq<Row>, ys: seq<Row>)
    requires forall k :: k in Keys(xs) ==> k !in Keys(ys)
    ensures DropDuplicates(xs + ys) == DropDuplicates(xs) + DropDuplicates(ys)
  {
    if xs != [] {
      var tail := xs[1..];
      assert (xs + ys)[1..] == tail + ys;
      assert Keys(xs) == [Key(xs[0])] + Keys(tail);
      KeysAppend(tail, ys);
      DropDuplicatesAppendDisjoint(tail, ys);
    } else {
      assert xs + ys == ys;
    }
  }

  /** Rows with distinct keys are left as they are. */
  lemma {:induction false} DropDuplicatesOfDistinct(rows: seq<Row>)
    requires NoDuplicates(Keys(rows))
    ensures DropDuplicates(rows) == rows
  {
    if rows != [] {
      var tail := rows[1..];
      assert Keys(rows) == [Key(rows[0])] + Keys(tail);
      assert Key(rows[0]) !in Keys(tail) by {
        forall j | 0 <= j < |tail|
          ensures Keys(tail)[j] != Key(rows[0])
        {
          assert Keys(rows)[j + 1] == Keys(tail)[j];
        }
      }
      assert NoDuplicates(Keys(tail)) by {
        forall i, j | 0 <= i < j < |tail|
          ensures Keys(tail)[i] != Keys(tail)[j]
        {
          assert Keys(rows)[i + 1] == Keys(tail)[i];
          assert Keys(rows)[j + 1] == Keys(tail)[j];
        }
      }
      DropDuplicatesOfDistinct(tail);
      assert [rows[0]] + tail == rows;
    }
  }

  /** `save_historical_data` without the file I/O. A first save stores the
      day's rows as they are. Otherwise the stored rows dated `today` are
      dropped, the day's rows appended, rows before `cutoff` (30 days back)
      dropped, and one row kept per instance and date. Every surviving row
      is recent, is one of the day's rows or a stored row of another day,
      and no key is lost that a recent row carried. */
  function SaveMerge(history: seq<Row>, df: seq<Row>, today: int, cutoff: int): (saved: seq<Row>)
    ensures history == [] ==> saved == df
    ensures history != [] ==>
              && NoDuplicates(Keys(saved))
              && (forall x :: x in saved ==> x.date >= cutoff)
              && (forall x :: x in saved ==> x in df || (x in history && x.date != today))
              && (forall x :: x in df && x.date >= cutoff ==> Key(x) in Keys(saved))
              && (forall x :: x in history && x.date != today && x.date >= cutoff ==> Key(x) in Keys(saved))
  {
    if history == [] then df
    else
      var combined := Recent(NotOn(history, today) + df, cutoff);
      var saved := DropDuplicates(combined);
      DropDuplicatesKeys(combined);
      forall x | x in combined
        ensures Key(x) in Keys(saved)
      {
        var i :| 0 <= i < |combined| && combined[i] == x;
        assert Keys(combined)[i] == Key(x);
      }
      saved
  }

  lemma {:induction false} RecentAppend(xs: seq<Row>, ys: seq<Row>, cutoff: int)
    ensures Recent(xs + ys, cutoff) == Recent(xs, cutoff) + Recent(ys, cutoff)
  {
    if xs == [] {
      assert xs + ys == ys;
    } else {
      assert (xs + ys)[1..] == xs[1..] + ys;
      RecentAppend(xs[1..], ys, cutoff);
    }
  }

  /** The position a survivor of de-duplication came from. */
  lemma SurvivorIndex(rows: seq<Row>, x: Row) returns (i: nat)
    requires x in DropDuplicates(rows)
    ensures i < |rows| && rows[i] == x && LastOfKey(rows, i)
  {
    DropDuplicatesKeepsLast(rows);
    i :| 0 <= i < |rows| && rows[i] == x && LastOfKey(rows, i);
  }

  /** A row that is the last of its key, where a later part also holds
      that key, lies in that later part. */
  lemma LastOfKeyInSuffix(a: seq<Row>, b: seq<Row>, i: nat, j: nat)
    requires i < |a + b| && LastOfKey(a + b, i)
    requires j < |b| && Key(b[j]) == Key((a + b)[i])
    ensures |a| <= i && (a + b)[i] == b[i - |a|]
  {
    assert (a + b)[|a| + j] == b[j];
  }

  /** After de-duplication of `a + b`, a survivor whose key occurs in `b`
      comes from `b`. */
  lemma LaterPartWins(a: seq<Row>, b: seq<Row>, x: Row)
    requires x in DropDuplicates(a + b)
    requires Key(x) in Keys(b)
    ensures x in b
  {
    var i := SurvivorIndex(a + b, x);
    var j :| 0 <= j < |b| && Keys(b)[j] == Key(x);
    LastOfKeyInSuffix(a, b, i, j);
  }

  /** A non-first save de-duplicates the recent stored rows of other days
      followed by the recent rows of the day. */
  lemma SaveMergeParts(history: seq<Row>, df: seq<Row>, today: int, cutoff: int)
    requires history != []
    ensures SaveMerge(history, df, today, cutoff)
            == DropDuplicates(Recent(NotOn(history, today), cutoff) + Recent(df, cutoff))
  {
    RecentAppend(NotOn(history, today), df, cutoff);
  }

  /** A fresh row wins: when one of the day's recent rows shares its key
      with a stored row, the saved row of that key is one of the day's. */
  lemma FreshRowsWin(history: seq<Row>, df: seq<Row>, today: int, cutoff: int, x: Row)
    requires history != []
    requires x in SaveMerge(history, df, today, cutoff)
    requires Key(x) in Keys(Recent(df, cutoff))
    ensures x in df
  {
    SaveMergeParts(history, df, today, cutoff);
    LaterPartWins(Recent(NotOn(history, today), cutoff), Recent(df, cutoff), x);
  }

  lemma {:induction false} NotOnAppend(xs: seq<Row>, ys: seq<Row>, day: int)
    ensures NotOn(xs + ys, day) == NotOn(xs, day) + NotOn(ys, day)
  {
    if xs == [] {
      assert xs + ys == ys;
    } else {
      assert (xs + ys)[1..] == xs[1..] + ys;
      NotOnAppend(xs[1..], ys, day);
    }
  }

  lemma {:induction false} NotOnKeepsAll(rows: seq<Row>, day: int)
    requires forall x :: x in rows ==> x.date != day
    ensures NotOn(rows, day) == rows
  {
    if rows != [] {
      NotOnKeepsAll(rows[1..], day);
    }
  }

  lemma {:induction false} NotOnDropsAll(rows: seq<Row>, day: int)
    requires forall x :: x in rows ==> x.date == day
    ensures NotOn(rows, day) == []
  {
    if rows != [] {
      NotOnDropsAll(rows[1..], day);
    }
  }

  lemma {:induction false} RecentKeepsAll(rows: seq<Row>, cutoff: int)
    requires forall x :: x in rows ==> x.date >= cutoff
    ensures Recent(rows, cutoff) == rows
  {
    if rows != [] {
      RecentKeepsAll(rows[1..], cutoff);
    }
  }

  /** Rows of different days never share a key. */
  lemma KeysOfDifferentDays(xs: seq<Row>, ys: seq<Row>, day: int)
    requires forall x :: x in xs ==> x.date != day
    requires forall y :: y in ys ==> y.date == day
    ensures forall k :: k in Keys(xs) ==> k !in Keys(ys)
  {
    forall k | k in Keys(xs)
      ensures k !in Keys(ys)
    {
      var i :| 0 <= i < |xs| && Keys(xs)[i] == k;
      assert k.1 == xs[i].date;
      forall j | 0 <= j < |ys|
        ensures Keys(ys)[j] != k
      {
        assert ys[j] in ys;
      }
    }
  }

  /** Saving the same day's rows a second time changes nothing: the first
      save's rows of that day are replaced by the same rows. */
  lemma SavingTwiceChangesNothing(history: seq<Row>, df: seq<Row>, today: int, cutoff: int)
    requires history != []
    requires forall x :: x in df ==> x.date == today
    requires today >= cutoff
    ensures SaveMerge(SaveMerge(history, df, today, cutoff), df, today, cutoff)
            == SaveMerge(history, df, today, cutoff)
  {
    var stored := Recent(NotOn(history, today), cutoff);
    RecentAppend(NotOn(history, today), df, cutoff);
    RecentKeepsAll(df, cutoff);
    KeysOfDifferentDays(stored, df, today);
    DropDuplicatesAppendDisjoint(stored, df);
    var once := SaveMerge(history, df, today, cutoff);
    var kept := DropDuplicates(stored);
    assert once == kept + DropDuplicates(df);
    if once == [] {
      DropDuplicatesKeys(df);
      assert Keys(DropDuplicates(df)) == [];
    } else {
      NotOnAppend(kept, DropDuplicates(df), today);
      NotOnKeepsAll(kept, today);
      NotOnDropsAll(DropDuplicates(df), today);
      assert NotOn(once, today) == kept;
      RecentAppend(kept, df, cutoff);
      RecentKeepsAll(kept, cutoff);
      KeysOfDifferentDays(kept, df, today);
      DropDuplicatesAppendDisjoint(kept, df);
      DropDuplicatesKeys(stored);
      DropDuplicatesOfDistinct(kept);
    }
  }

  /** The rows of one day: `historical[historical['Date'] == day]`. */
  function OnDay(rows: seq<Row>, day: int): (selected: seq<Row>)
    ensures forall r :: r in selected <==> r in rows && r.date == day
  {
    if rows == [] then []
    else
      var rest := OnDay(rows[1..], day);
      assert forall r :: r in rows ==> r == rows[0] || r in rows[1..];
      if rows[0].date == day then [rows[0]] + rest else rest
  }

  lemma NoDuplicatesTail<T>(xs: seq<T>)
    requires xs != [] && NoDuplicates(xs)
    ensures NoDuplicates(xs[1..]) && xs[0] !in xs[1..]
  {
    forall i, j | 0 <= i < j < |xs| - 1
      ensures xs[1..][i] != xs[1..][j]
    {
      assert xs[1..][i] == xs[i + 1] && xs[1..][j] == xs[j + 1];
    }
  }

  lemma NoDuplicatesCons<T>(x: T, xs: seq<T>)
    requires NoDuplicates(xs) && x !in xs
    ensures NoDuplicates([x] + xs)
  {
    forall i, j | 0 <= i < j < |xs| + 1
      ensures ([x] + xs)[i] != ([x] + xs)[j]
    {
      assert ([x] + xs)[j] == xs[j - 1];
    }
  }

  /** Every row is in the key list. */
  lemma KeyListed(rows: seq<Row>, r: Row)
    requires r in rows
    ensures Key(r) in Keys(rows)
  {
    var k :| 0 <= k < |rows| && rows[k] == r;
    assert Keys(rows)[k] == Key(r);
  }

  /** A row whose key is not among `rows` names an instance that has no
      row on its own day there. */
  lemma IdAbsentOnDay(rows: seq<Row>, x: Row)
    requires Key(x) !in Keys(rows)
    ensures x.id !in Ids(OnDay(rows, x.date))
  {
    var rest := OnDay(rows, x.date);
    forall j | 0 <= j < |rest|
      ensures Ids(rest)[j] != x.id
    {
      assert rest[j] in rows && rest[j].date == x.date;
      KeyListed(rows, rest[j]);
    }
  }

  /** A history with one row per instance and date has one row per
      instance on any single day, so the previous day's rows name each
      instance once. */
  lemma {:induction false} OneDayHasDistinctIds(rows: seq<Row>, day: int)
    requires NoDuplicates(Keys(rows))
    ensures NoDuplicates(Ids(OnDay(rows, day)))
  {
    if rows != [] {
      var tail := rows[1..];
      assert Keys(rows) == [Key(rows[0])] + Keys(tail);
      NoDuplicatesTail(Keys(rows));
      assert Keys(rows)[1..] == Keys(tail);
      OneDayHasDistinctIds(tail, day);
      if rows[0].date == day {
        var rest := OnDay(tail, day);
        assert OnDay(rows, day) == [rows[0]] + rest;
        assert Ids(OnDay(rows, day)) == [rows[0].id] + Ids(rest);
        IdAbsentOnDay(tail, rows[0]);
        NoDuplicatesCons(rows[0].id, Ids(rest));
      }
    }
  }

  /** After a save that merged into an existing history, the rows of any
      stored day name each instance once, so comparing with that day lines
      up row by row. */
  lemma SavedDayHasDistinctIds(history: seq<Row>, df: seq<Row>, today: int, cutoff: int, day: int)
    requires history != []
    ensures NoDuplicates(Ids(OnDay(SaveMerge(history, df, today, cutoff), day)))
  {
    OneDayHasDistinctIds(SaveMerge(history, df, today, cutoff), day);
  }

  /** A trend label: `NotAvailable` when there is nothing to compare with. */
  datatype Trend = NotAvailable | Increased | Decreased | Stable

  /** The change, in percentage points, beyond which a metric has moved. */
  const TrendThreshold := 5.0

  /** The label of a change. A missing change (pandas' `NaN`, from a current
      cell without a number) fails both comparisons and reads as stable. */
  function TrendOf(change: Option<real>): Trend {
    match change
    case None => Stable
    case Some(x) =>
      if x > TrendThreshold then Increased
      else if x < -TrendThreshold then Decreased
      else Stable
  }

  /** A change labels as increased exactly when its opposite labels as
      decreased, as stable exactly within 5 points either way, and never as
      not available. */
  lemma TrendSymmetry(x: real)
    ensures TrendOf(Some(x)) == Increased <==> TrendOf(Some(-x)) == Decreased
    ensures TrendOf(Some(x)) == Stable <==> -TrendThreshold <= x <= TrendThreshold
    ensures TrendOf(Some(x)) != NotAvailable
  {
  }

  /** The rank of a label along the axis decreased < stable < increased. */
  function TrendRank(t: Trend): int {
    match t
    case Decreased => -1
    case Increased => 1
    case _ => 0
  }

  /** A larger change never gets a lower label. */
  lemma TrendMonotone(x: real, y: real)
    requires x <= y
    ensures TrendRank(TrendOf(Some(x))) <= TrendRank(TrendOf(Some(y)))
  {
  }

  /** `current - previous.fillna(0)`: no change without a current number,
      and a missing previous number counts as 0. */
  function Change(current: Option<real>, previous: Option<real>): (c: Option<real>)
    ensures c.None? <==> current.None?
    ensures c.Some? ==> c.value + previous.GetOr(0.0) == current.value
  {
    if current.None? then None else Some(current.value - previous.GetOr(0.0))
  }

  /** One row of the trend table: the current row with its changes and
      labels. */
  datatype TrendRow = TrendRow(row: Row, cpuChange: Option<real>, ramChange: Option<real>,
                               diskChange: real, cpuTrend: Trend, ramTrend: Trend, diskTrend: Trend)

  /** A previous cell, missing when there is no previous row. */
  function PreviousCell(previous: Option<Row>, m: Metric): Option<real> {
    if previous.Some? then Cell(previous.value, m) else None
  }

  /** The disk change: both sides' missing numbers count as 0; without a
      previous disk column there is no disk change. */
  function DiskChange(row: Row, previous: Option<Row>, previousHasDisk: bool): real {
    if previousHasDisk then row.disk.GetOr(0.0) - PreviousCell(previous, Disk).GetOr(0.0) else 0.0
  }

  /** One current row against one previous row of its instance (or none).
      CPU and RAM always get a label; disk gets one exactly when the
      previous rows have a disk column. */
  function Compare(row: Row, previous: Option<Row>, previousHasDisk: bool): (t: TrendRow)
    ensures t.row == row
    ensures t.cpuTrend != NotAvailable && t.ramTrend != NotAvailable
    ensures t.diskTrend == NotAvailable <==> !previousHasDisk
  {
    var cpu := Change(row.cpu, PreviousCell(previous, Cpu));
    var ram := Change(row.ram, PreviousCell(previous, Ram));
    var disk := DiskChange(row, previous, previousHasDisk);
    TrendRow(row, cpu, ram, disk, TrendOf(cpu), TrendOf(ram),
             if previousHasDisk then TrendOf(Some(disk)) else NotAvailable)
  }

  /** The previous row a current row is compared with when its instance
      has exactly one: the first of its instance, if any. */
  function Partner(previous: seq<Row>, id: string): Option<Row> {
    var matches := InstanceRows(previous, id);
    if matches == [] then None else Some(matches[0])
  }

  /** The merged rows of one current row: one per previous row of its
      instance, in their order, or one without a previous row when there is
      none. */
  function MergeRow(row: Row, previous: seq<Row>, previousHasDisk: bool): (head: seq<TrendRow>)
    ensures |head| >= 1
    ensures forall t :: t in head ==>
              t.row == row && t.cpuTrend != NotAvailable && t.ramTrend != NotAvailable
              && (t.diskTrend == NotAvailable <==> !previousHasDisk)
    ensures |InstanceRows(previous, row.id)| <= 1 ==>
              head == [Compare(row, Partner(previous, row.id), previousHasDisk)]
  {
    var matches := InstanceRows(previous, row.id);
    if matches == [] then [Compare(row, None, previousHasDisk)]
    else seq(|matches|, i requires 0 <= i < |matches| => Compare(row, Some(matches[i]), previousHasDisk))
  }

  /** pandas' left merge on `ID`: each current row, in order, once per
      previous row of its instance, or once alone. */
  function LeftMerge(current: seq<Row>, previous: seq<Row>, previousHasDisk: bool): (merged: seq<TrendRow>)
    ensures |merged| >= |current|
    ensures forall t :: t in merged ==> t.row in current
    ensures forall r :: r in current ==> exists t :: t in merged && t.row == r
    ensures forall t :: t in merged ==>
              t.cpuTrend != NotAvailable && t.ramTrend != NotAvailable
              && (t.diskTrend == NotAvailable <==> !previousHasDisk)
  {
    if current == [] then []
    else
      var head := MergeRow(current[0], previous, previousHasDisk);
      var rest := LeftMerge(current[1..], previous, previousHasDisk);
      assert forall t :: t in rest ==> t.row in current;
      assert head[0] in head + rest;
      assert forall r :: r in current ==> r == current[0] || r in current[1..];
      head + rest
  }

  /** The merge goes row by row: merging a concatenation concatenates the
      merges, so every current row keeps its place and its own block of
      result rows. */
  lemma {:induction false} LeftMergeAppend(xs: seq<Row>, ys: seq<Row>, previous: seq<Row>, previousHasDisk: bool)
    ensures LeftMerge(xs + ys, previous, previousHasDisk)
            == LeftMerge(xs, previous, previousHasDisk) + LeftMerge(ys, previous, previousHasDisk)
  {
    if xs == [] {
      assert xs + ys == ys;
    } else {
      assert (xs + ys)[0] == xs[0];
      assert (xs + ys)[1..] == xs[1..] + ys;
      LeftMergeAppend(xs[1..], ys, previous, previousHasDisk);
    }
  }

  /** `calculate_trends`. Without previous rows every row is labelled not
      available with zero changes; otherwise every merged row gets CPU and
      RAM labels, and a disk label exactly when the previous rows have a
      disk column. */
  function CalculateTrends(current: seq<Row>, previous: seq<Row>, previousHasDisk: bool): (trends: seq<TrendRow>)
    ensures previous == [] ==>
              && |trends| == |current|
              && forall i :: 0 <= i < |current| ==>
                   trends[i] == TrendRow(current[i], Some(0.0), Some(0.0), 0.0,
                                         NotAvailable, NotAvailable, NotAvailable)
    ensures previous != [] ==>
              forall t :: t in trends ==>
                t.cpuTrend != NotAvailable && t.ramTrend != NotAvailable
                && (t.diskTrend == NotAvailable <==> !previousHasDisk)
    ensures |trends| >= |current|
    ensures forall t :: t in trends ==> t.row in current
  {
    if previous == [] then
      seq(|current|, i requires 0 <= i < |current| =>
            TrendRow(current[i], Some(0.0), Some(0.0), 0.0, NotAvailable, NotAvailable, NotAvailable))
    else LeftMerge(current, previous, previousHasDisk)
  }

  /** A previous table naming each instance once holds at most one row of
      any instance. */
  lemma {:induction false} AtMostOneMatch(previous: seq<Row>, id: string)
    requires NoDuplicates(Ids(previous))
    ensures |InstanceRows(previous, id)| <= 1
  {
    if previous != [] {
      var tail := previous[1..];
      assert Ids(previous) == [previous[0].id] + Ids(tail);
      NoDuplicatesTail(Ids(previous));
      assert Ids(previous)[1..] == Ids(tail);
      AtMostOneMatch(tail, id);
      if previous[0].id == id {
        assert InstanceRows(tail, id) == [];
      }
    }
  }

  /** With each instance named once, the partner of a previous row's
      instance is that row. */
  lemma PartnerIsTheRow(previous: seq<Row>, p: Row)
    requires NoDuplicates(Ids(previous))
    requires p in previous
    ensures Partner(previous, p.id) == Some(p)
  {
    AtMostOneMatch(previous, p.id);
    var matches := InstanceRows(previous, p.id);
    assert p in matches;
    assert |matches| == 1;
  }

  /** With each instance named once, the left merge yields one row per
      current row, compared with its partner. */
  lemma {:induction false} MergeAligned(current: seq<Row>, previous: seq<Row>, previousHasDisk: bool)
    requires NoDuplicates(Ids(previous))
    ensures var merged := LeftMerge(current, previous, previousHasDisk);
      && |merged| == |current|
      && forall i :: 0 <= i < |current| ==>
           merged[i] == Compare(current[i], Partner(previous, current[i].id), previousHasDisk)
  {
    if current != [] {
      MergeAligned(current[1..], previous, previousHasDisk);
      AtMostOneMatch(previous, current[0].id);
      var merged := LeftMerge(current, previous, previousHasDisk);
      var rest := LeftMerge(current[1..], previous, previousHasDisk);
      var head := MergeRow(current[0], previous, previousHasDisk);
      assert merged == head + rest;
      assert |head| == 1;
      forall i | 0 <= i < |current|
        ensures merged[i] == Compare(current[i], Partner(previous, current[i].id), previousHasDisk)
      {
        if i > 0 {
          assert merged[i] == rest[i - 1];
          assert current[i] == current[1..][i - 1];
        }
      }
    }
  }

  /** Row `i` of an aligned trend table. */
  lemma TrendAt(current: seq<Row>, previous: seq<Row>, previousHasDisk: bool, i: nat)
    requires previous != [] && NoDuplicates(Ids(previous))
    requires i < |current|
    ensures |CalculateTrends(current, previous, previousHasDisk)| == |current|
    ensures CalculateTrends(current, previous, previousHasDisk)[i]
            == Compare(current[i], Partner(previous, current[i].id), previousHasDisk)
  {
    MergeAligned(current, previous, previousHasDisk);
  }

  /** An instance absent from the previous rows has no partner. */
  lemma NoPartner(previous: seq<Row>, id: string)
    requires id !in Ids(previous)
    ensures Partner(previous, id) == None
  {
  }

  /** The changes of a row compared with a previous row. */
  lemma ComparedWithRow(row: Row, p: Row, previousHasDisk: bool)
    ensures var t := Compare(row, Some(p), previousHasDisk);
      && t.cpuChange == Change(row.cpu, p.cpu)
      && t.ramChange == Change(row.ram, p.ram)
      && t.diskChange == (if previousHasDisk then row.disk.GetOr(0.0) - p.disk.GetOr(0.0) else 0.0)
  {
  }

  /** The changes of a row compared with nothing: the current values. */
  lemma ComparedWithNothing(row: Row, previousHasDisk: bool)
    ensures var t := Compare(row, None, previousHasDisk);
      && t.cpuChange == row.cpu
      && t.ramChange == row.ram
      && t.diskChange == (if previousHasDisk then row.disk.GetOr(0.0) else 0.0)
  {
  }

  /** When the previous rows name each instance once, the trend table lines
      up with the current rows: row `i` extends current row `i`, compared
      with its instance's previous row, or with 0 when the instance has
      none. */
  lemma TrendsAlignWithCurrent(current: seq<Row>, previous: seq<Row>, previousHasDisk: bool, i: nat)
    requires previous != [] && NoDuplicates(Ids(previous))
    requires i < |current|
    ensures var trends := CalculateTrends(current, previous, previousHasDisk);
      && |trends| == |current|
      && trends[i].row == current[i]
      && (forall p :: p in previous && p.id == current[i].id ==>
            && trends[i].cpuChange == Change(current[i].cpu, p.cpu)
            && trends[i].ramChange == Change(current[i].ram, p.ram)
            && trends[i].diskChange ==
                 (if previousHasDisk then current[i].disk.GetOr(0.0) - p.disk.GetOr(0.0) else 0.0))
      && (current[i].id !in Ids(previous) ==>
            && trends[i].cpuChange == current[i].cpu
            && trends[i].ramChange == current[i].ram
            && trends[i].diskChange == (if previousHasDisk then current[i].disk.GetOr(0.0) else 0.0))
  {
    TrendAt(current, previous, previousHasDisk, i);
    var row := current[i];
    var t := CalculateTrends(current, previous, previousHasDisk)[i];
    forall p | p in previous && p.id == row.id
      ensures && t.cpuChange == Change(row.cpu, p.cpu)
              && t.ramChange == Change(row.ram, p.ram)
              && t.diskChange == (if previousHasDisk then row.disk.GetOr(0.0) - p.disk.GetOr(0.0) else 0.0)
    {
      PartnerIsTheRow(previous, p);
      assert t == Compare(row, Some(p), previousHasDisk);
      ComparedWithRow(row, p, previousHasDisk);
    }
    if row.id !in Ids(previous) {
      NoPartner(previous, row.id);
      assert t == Compare(row, None, previousHasDisk);
      ComparedWithNothing(row, previousHasDisk);
    }
  }
}
