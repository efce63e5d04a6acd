/** Cursor pagination of a user's usage history: `app/applicationapi/connection_service.py`. */
module UsagePages {
  import opened Basics
  import opened Outcome
  import opened Ordering

  /** Microseconds since the epoch. */
  type Time = int

  const SECOND: int := 1_000_000

  datatype Granularity = Hour | Day

  function Width(g: Granularity): (w: int)
    ensures w > 0 && w % SECOND == 0
  {
    if g == Hour then 3600 * SECOND else 86400 * SECOND
  }

  function Longest(g: Granularity): int {
    if g == Hour then 7 * 86400 * SECOND else 90 * 86400 * SECOND
  }

  datatype Record = Record(at: Time, up: Option<int>, down: Option<int>)

  datatype Bucket = Bucket(start: Time, end: Time, up: int, down: int, total: int)

  /** The cursor is a timestamp in whole seconds. */
  datatype Page = Page(items: seq<Bucket>, next: Option<int>)

  datatype Problem = InvalidRange

  function Count(n: Option<int>): int {
    if n.Some? then n.value else 0
  }

  function Min(a: int, b: int): int {
    if a <= b then a else b
  }

  /** The start of the hour or day a time falls in. */
  function KeyOf(g: Granularity, t: Time): (k: Time)
    ensures k <= t < k + Width(g) && k % Width(g) == 0
  {
    t - t % Width(g)
  }

  function Encode(t: Time): int {
    t / SECOND
  }

  function Decode(cursor: int): Time {
    cursor * SECOND
  }

  // ---- one page as a function of the records -----------------------------------------------

  /** The rows of the query `start <= recorded_at < before`. */
  function Window(records: seq<Record>, start: Time, before: Time): seq<Record> {
    if records == [] then []
    else
      var rest, last := Window(records[..|records| - 1], start, before), records[|records| - 1];
      if start <= last.at < before then rest + [last] else rest
  }

  function Keys(g: Granularity, rows: seq<Record>): set<Time> {
    set i | 0 <= i < |rows| :: KeyOf(g, rows[i].at)
  }

  function UpOf(g: Granularity, rows: seq<Record>, key: Time): int {
    if rows == [] then 0
    else UpOf(g, rows[..|rows| - 1], key)
         + (if KeyOf(g, rows[|rows| - 1].at) == key then Count(rows[|rows| - 1].up) else 0)
  }

  function DownOf(g: Granularity, rows: seq<Record>, key: Time): int {
    if rows == [] then 0
    else DownOf(g, rows[..|rows| - 1], key)
         + (if KeyOf(g, rows[|rows| - 1].at) == key then Count(rows[|rows| - 1].down) else 0)
  }

  function ItemOf(g: Granularity, rows: seq<Record>, end: Time, key: Time): Bucket {
    var up, down := UpOf(g, rows, key), DownOf(g, rows, key);
    Bucket(key, Min(key + Width(g), end), up, down, up + down)
  }

  function Items(g: Granularity, rows: seq<Record>, end: Time, keys: seq<Time>): (r: seq<Bucket>)
    ensures |r| == |keys| && forall i :: 0 <= i < |keys| ==> r[i] == ItemOf(g, rows, end, keys[i])
  {
    seq(|keys|, i requires 0 <= i < |keys| => ItemOf(g, rows, end, keys[i]))
  }

  function Take<T>(xs: seq<T>, n: nat): seq<T> {
    if n <= |xs| then xs[..n] else xs
  }

  ghost function PageOf(g: Granularity, records: seq<Record>, start: Time, end: Time, before: Time, limit: nat): Page {
    var rows := Window(records, start, before);
    var ordered := Desc(Keys(g, rows));
    var selected := Take(ordered, limit);
    Page(Items(g, rows, end, selected),
         if |ordered| > |selected| && selected != [] then Some(Encode(selected[|selected| - 1])) else None)
  }

  // ---- the loop -----------------------------------------------------------------------------

  datatype Sum = Sum(up: int, down: int)

  ghost predicate Summed(g: Granularity, rows: seq<Record>, buckets: map<Time, Sum>) {
    && buckets.Keys == Keys(g, rows)
    && forall key :: key in buckets ==> buckets[key] == Sum(UpOf(g, rows, key), DownOf(g, rows, key))
  }

  lemma {:induction false} NoSum(g: Granularity, rows: seq<Record>, key: Time)
    requires key !in Keys(g, rows)
    ensures UpOf(g, rows, key) == 0 && DownOf(g, rows, key) == 0
  {
    if rows != [] {
      var n := |rows| - 1;
      assert KeyOf(g, rows[n].at) in Keys(g, rows);
      assert key !in Keys(g, rows[..n]) by {
        forall i | 0 <= i < n ensures KeyOf(g, rows[..n][i].at) != key {
          assert KeyOf(g, rows[i].at) in Keys(g, rows);
        }
      }
      NoSum(g, rows[..n], key);
    }
  }

  lemma KeysAppend(g: Granularity, rows: seq<Record>, r: Record)
    ensures Keys(g, rows + [r]) == Keys(g, rows) + {KeyOf(g, r.at)}
  {
    hide KeyOf;
    var all := rows + [r];
    forall k | k in Keys(g, rows) + {KeyOf(g, r.at)} ensures k in Keys(g, all) {
      if k in Keys(g, rows) {
        var i :| 0 <= i < |rows| && KeyOf(g, rows[i].at) == k;
        assert all[i] == rows[i];
      } else {
        assert all[|rows|] == r;
      }
    }
  }

  lemma SumNext(g: Granularity, rows: seq<Record>, buckets: map<Time, Sum>, r: Record)
    requires Summed(g, rows, buckets)
    ensures var key := KeyOf(g, r.at);
            var was := if key in buckets then buckets[key] else Sum(0, 0);
            Summed(g, rows + [r], buckets[key := Sum(was.up + Count(r.up), was.down + Count(r.down))])
  {
    hide KeyOf, Keys;
    KeysAppend(g, rows, r);
    assert (rows + [r])[..|rows|] == rows;
    if KeyOf(g, r.at) !in buckets {
      NoSum(g, rows, KeyOf(g, r.at));
    }
  }

  method FillBuckets(g: Granularity, rows: seq<Record>) returns (buckets: map<Time, Sum>)
    ensures Summed(g, rows, buckets)
  {
    hide Summed, KeyOf;
    buckets := map[];
    NothingSummed(g);
    for i := 0 to |rows|
      invariant Summed(g, rows[..i], buckets)
    {
      var key := KeyOf(g, rows[i].at);
      var totals := if key in buckets then buckets[key] else Sum(0, 0);
      SumNext(g, rows[..i], buckets, rows[i]);
      assert rows[..i + 1] == rows[..i] + [rows[i]];
      buckets := buckets[key := Sum(totals.up + Count(rows[i].up), totals.down + Count(rows[i].down))];
    }
    assert rows[..|rows|] == rows;
  }

  lemma NothingSummed(g: Granularity)
    ensures Summed(g, [], map[])
  {
  }

  lemma SummedKeys(g: Granularity, rows: seq<Record>, buckets: map<Time, Sum>)
    requires Summed(g, rows, buckets)
    ensures buckets.Keys == Keys(g, rows)
  {
  }

  method MakeItems(g: Granularity, ghost rows: seq<Record>, end: Time, buckets: map<Time, Sum>, selected: seq<Time>)
    returns (items: seq<Bucket>)
    requires Summed(g, rows, buckets) && forall k :: k in selected ==> k in buckets
    ensures items == Items(g, rows, end, selected)
  {
    items := [];
    for i := 0 to |selected|
      invariant |items| == i && forall k :: 0 <= k < i ==> items[k] == ItemOf(g, rows, end, selected[k])
    {
      var key := selected[i];
      assert key in selected;
      items := items + [Bucket(key, Min(key + Width(g), end), buckets[key].up, buckets[key].down,
                               buckets[key].up + buckets[key].down)];
    }
    assert items == Items(g, rows, end, selected);
  }

  /** `usage_history` after authorization, over the user's records. */
  method UsageHistory(g: Granularity, records: seq<Record>, from: Time, to: Time, now: Time, limit: nat, cursor: Option<int>)
    returns (r: Result<Page, Problem>)
    ensures var end := Min(to, now + SECOND);
            if from >= end || end - from > Longest(g) then r == Err(InvalidRange)
            else r == Ok(PageOf(g, records, from, end, if cursor.Some? then Min(Decode(cursor.value), end) else end, limit))
  {
    hide Window, KeyOf, Summed, Items, Keys, Longest;
    var end := Min(to, now + SECOND);
    if from >= end || end - from > Longest(g) {
      return Err(InvalidRange);
    }
    var before := if cursor.Some? then Decode(cursor.value) else end;
    before := Min(before, end);
    var rows := Window(records, from, before);
    var buckets := FillBuckets(g, rows);
    SummedKeys(g, rows, buckets);
    var ordered := SortDescending(buckets.Keys);
    var selected := Take(ordered, limit);
    var items := MakeItems(g, rows, end, buckets, selected);
    var next := None;
    if |ordered| > |selected| && selected != [] {
      next := Some(Encode(selected[|selected| - 1]));
    }
    r := Ok(Page(items, next));
  }

  // ---- following cursors ------------------------------------------------------------------------

  lemma WholeSeconds(m: int)
    ensures Decode(Encode(m * SECOND)) == m * SECOND
  {
  }

  /** A cursor round-trips on every bucket start. */
  lemma CursorRoundTrip(g: Granularity, t: Time)
    ensures Decode(Encode(KeyOf(g, t))) == KeyOf(g, t)
  {
    var k := KeyOf(g, t);
    var n := k / Width(g);
    assert k == Width(g) * n;
    WholeSeconds(if g == Hour then 3600 * n else 86400 * n);
  }

  lemma {:induction false} WindowMembers(records: seq<Record>, start: Time, before: Time, r: Record)
    ensures r in Window(records, start, before) <==> r in records && start <= r.at < before
  {
    if records != [] {
      var n := |records| - 1;
      WindowMembers(records[..n], start, before, r);
      assert records == records[..n] + [records[n]];
    }
  }

  /** A record is before a bucket start exactly when its own bucket is. */
  lemma BeforeKey(g: Granularity, t: Time, key: Time)
    requires key % Width(g) == 0
    ensures t < key <==> KeyOf(g, t) < key
  {
    if KeyOf(g, t) < key {
      MultiplesApart(KeyOf(g, t), key, Width(g));
    }
  }

  lemma MultiplesApart(a: int, b: int, w: int)
    requires w > 0 && a % w == 0 && b % w == 0 && a < b
    ensures a + w <= b
  {
    var p, q := a / w, b / w;
    assert a == w * p && b == w * q;
    if q <= p {
      MulGrows(w, q, p);
    } else {
      MulGrows(w, p + 1, q);
      assert w * (p + 1) == w * p + w;
    }
  }

  lemma KeyMember(g: Granularity, rows: seq<Record>, k: Time)
    requires k in Keys(g, rows)
    ensures exists r :: r in rows && KeyOf(g, r.at) == k
    ensures k % Width(g) == 0
  {
    var i :| 0 <= i < |rows| && KeyOf(g, rows[i].at) == k;
    assert rows[i] in rows;
  }

  lemma MemberKey(g: Granularity, rows: seq<Record>, r: Record)
    requires r in rows
    ensures KeyOf(g, r.at) in Keys(g, rows)
  {
    var i :| 0 <= i < |rows| && rows[i] == r;
  }

  /** Narrowing the window to a bucket start drops exactly the buckets from there on. */
  lemma NarrowKeys(g: Granularity, records: seq<Record>, start: Time, before: Time, key: Time)
    requires key % Width(g) == 0 && key <= before
    ensures var wide, narrow := Keys(g, Window(records, start, before)), Keys(g, Window(records, start, key));
            narrow == set k | k in wide && k < key
  {
    hide KeyOf, Keys, Window;
    var w, n := Window(records, start, before), Window(records, start, key);
    forall k ensures k in Keys(g, n) <==> k in Keys(g, w) && k < key {
      if k in Keys(g, n) {
        KeyMember(g, n, k);
        var r :| r in n && KeyOf(g, r.at) == k;
        WindowMembers(records, start, key, r);
        WindowMembers(records, start, before, r);
        MemberKey(g, w, r);
        BeforeKey(g, r.at, key);
      }
      if k in Keys(g, w) && k < key {
        KeyMember(g, w, k);
        var r :| r in w && KeyOf(g, r.at) == k;
        WindowMembers(records, start, before, r);
        WindowMembers(records, start, key, r);
        BeforeKey(g, r.at, key);
        MemberKey(g, n, r);
      }
    }
  }

  /** Buckets before the narrowed end keep their sums. */
  lemma {:induction false} NarrowSums(g: Granularity, records: seq<Record>, start: Time, before: Time, key: Time, k: Time)
    requires key % Width(g) == 0 && key <= before && k < key
    ensures UpOf(g, Window(records, start, key), k) == UpOf(g, Window(records, start, before), k)
    ensures DownOf(g, Window(records, start, key), k) == DownOf(g, Window(records, start, before), k)
  {
    hide KeyOf;
    if records != [] {
      var n := |records| - 1;
      var r := records[n];
      NarrowSums(g, records[..n], start, before, key, k);
      BeforeKey(g, r.at, key);
      SumsAppend(g, Window(records[..n], start, key), r, k);
      SumsAppend(g, Window(records[..n], start, before), r, k);
    }
  }

  lemma SumsAppend(g: Granularity, rows: seq<Record>, r: Record, k: Time)
    ensures UpOf(g, rows + [r], k) == UpOf(g, rows, k) + (if KeyOf(g, r.at) == k then Count(r.up) else 0)
    ensures DownOf(g, rows + [r], k) == DownOf(g, rows, k) + (if KeyOf(g, r.at) == k then Count(r.down) else 0)
  {
    hide KeyOf;
    assert (rows + [r])[..|rows|] == rows;
  }

  lemma TailBelow(d: seq<int>, n: nat, x: int)
    requires Descending(d) && 0 < n < |d|
    ensures x in d[n..] <==> x in d && x < d[n - 1]
  {
    if x in d[n..] {
      var i :| 0 <= i < |d[n..]| && d[n..][i] == x;
      assert d[n + i] == x && x in d;
    }
    if x in d && x < d[n - 1] {
      var i :| 0 <= i < |d| && d[i] == x;
      assert i >= n;
      assert d[n..][i - n] == x;
    }
  }

  /** What is left of a descending list below its `n`th element. */
  lemma DescBelow(s: set<int>, n: nat)
    requires 0 < n < |Desc(s)|
    ensures Desc(set k | k in s && k < Desc(s)[n - 1]) == Desc(s)[n..]
  {
    hide Desc;
    var d := Desc(s);
    var low := set k | k in s && k < d[n - 1];
    forall x ensures x in d[n..] <==> x in low {
      TailBelow(d, n, x);
    }
    DescendingUnique(Desc(low), d[n..]);
  }

  ghost function Ordered(g: Granularity, records: seq<Record>, start: Time, before: Time): seq<Time> {
    Desc(Keys(g, Window(records, start, before)))
  }

  /** A bucket start of the window is a bucket boundary inside it, and survives the cursor. */
  lemma CutKey(g: Granularity, records: seq<Record>, start: Time, before: Time, key: Time)
    requires key in Ordered(g, records, start, before)
    ensures key % Width(g) == 0 && key < before && Decode(Encode(key)) == key
  {
    hide KeyOf, Keys, Window;
    var rows := Window(records, start, before);
    KeyMember(g, rows, key);
    var r :| r in rows && KeyOf(g, r.at) == key;
    WindowMembers(records, start, before, r);
    CursorRoundTrip(g, r.at);
    assert key <= r.at;
  }

  /** The buckets below the `n`th are the rest of the list. */
  lemma CutOrdered(g: Granularity, records: seq<Record>, start: Time, before: Time, n: nat)
    requires 0 < n < |Ordered(g, records, start, before)|
    ensures var key := Ordered(g, records, start, before)[n - 1];
            Ordered(g, records, start, key) == Ordered(g, records, start, before)[n..]
  {
    hide KeyOf, Keys, Window;
    var key := Ordered(g, records, start, before)[n - 1];
    assert key in Ordered(g, records, start, before);
    CutKey(g, records, start, before, key);
    NarrowKeys(g, records, start, before, key);
    DescBelow(Keys(g, Window(records, start, before)), n);
  }

  /** Every bucket of the range at once. */
  ghost function Whole(g: Granularity, records: seq<Record>, start: Time, end: Time, before: Time): (r: seq<Bucket>)
    ensures |r| == |Ordered(g, records, start, before)|
  {
    Items(g, Window(records, start, before), end, Ordered(g, records, start, before))
  }

  lemma SameItem(g: Granularity, records: seq<Record>, start: Time, end: Time, before: Time, key: Time, k: Time)
    requires key % Width(g) == 0 && key <= before && k < key
    ensures ItemOf(g, Window(records, start, key), end, k) == ItemOf(g, Window(records, start, before), end, k)
  {
    hide KeyOf, Keys, Window, UpOf, DownOf;
    NarrowSums(g, records, start, before, key, k);
  }

  /** The list after a cut is the rest of the list. */
  lemma CutWhole(g: Granularity, records: seq<Record>, start: Time, end: Time, before: Time, n: nat)
    requires 0 < n < |Ordered(g, records, start, before)|
    ensures var key := Ordered(g, records, start, before)[n - 1];
            Whole(g, records, start, end, key) == Whole(g, records, start, end, before)[n..]
  {
    hide Window, Ordered, ItemOf;
    var keys := Ordered(g, records, start, before);
    var key := keys[n - 1];
    assert key in keys;
    CutKey(g, records, start, before, key);
    CutOrdered(g, records, start, before, n);
    OrderedDescends(g, records, start, before);
    forall i | 0 <= i < |keys| - n
      ensures Whole(g, records, start, end, key)[i] == Whole(g, records, start, end, before)[n + i]
    {
      assert keys[n..][i] == keys[n + i];
      SameItem(g, records, start, end, before, key, keys[n + i]);
    }
  }

  lemma OrderedDescends(g: Granularity, records: seq<Record>, start: Time, before: Time)
    ensures Descending(Ordered(g, records, start, before))
  {
  }

  lemma PageParts(g: Granularity, records: seq<Record>, start: Time, end: Time, before: Time, limit: nat)
    requires limit >= 1
    ensures var keys, page := Ordered(g, records, start, before), PageOf(g, records, start, end, before, limit);
            if |keys| > limit
            then page.next == Some(Encode(keys[limit - 1]))
                 && page.items == Whole(g, records, start, end, before)[..limit]
            else page.next == None && page.items == Whole(g, records, start, end, before)
  {
    hide Window, KeyOf, Keys, Desc, ItemOf;
  }

  /** All pages, following cursors from `before` on; each leaves fewer buckets to list. */
  ghost function AllPages(g: Granularity, records: seq<Record>, start: Time, end: Time, before: Time, limit: nat): (r: seq<Page>)
    requires limit >= 1 && before <= end
    decreases |Ordered(g, records, start, before)|
  {
    var page := PageOf(g, records, start, end, before, limit);
    PageParts(g, records, start, end, before, limit);
    if page.next.None? then [page]
    else
      var key := Ordered(g, records, start, before)[limit - 1];
      assert key in Ordered(g, records, start, before);
      CutKey(g, records, start, before, key);
      CutOrdered(g, records, start, before, limit);
      [page] + AllPages(g, records, start, end, Min(Decode(page.next.value), end), limit)
  }

  function Joined(pages: seq<Page>): seq<Bucket> {
    if pages == [] then [] else pages[0].items + Joined(pages[1..])
  }

  /** Following cursors to the end lists exactly what one unlimited query lists. */
  lemma {:induction false} PagesAreWhole(g: Granularity, records: seq<Record>, start: Time, end: Time, before: Time, limit: nat)
    requires limit >= 1 && before <= end
    ensures Joined(AllPages(g, records, start, end, before, limit)) == Whole(g, records, start, end, before)
    decreases |Ordered(g, records, start, before)|
  {
    hide Ordered, PageOf, Whole, Encode, Decode, Window;
    var page := PageOf(g, records, start, end, before, limit);
    var whole := Whole(g, records, start, end, before);
    PageParts(g, records, start, end, before, limit);
    var all := AllPages(g, records, start, end, before, limit);
    if page.next.Some? {
      var key := Ordered(g, records, start, before)[limit - 1];
      assert key in Ordered(g, records, start, before);
      CutKey(g, records, start, before, key);
      CutOrdered(g, records, start, before, limit);
      CutWhole(g, records, start, end, before, limit);
      PagesAreWhole(g, records, start, end, key, limit);
      assert all == [page] + AllPages(g, records, start, end, key, limit);
      assert all[1..] == AllPages(g, records, start, end, key, limit);
      assert whole[..limit] + whole[limit..] == whole;
    } else {
      assert all == [page] && all[1..] == [];
    }
  }

  // ---- every record is counted once ---------------------------------------------------------------

  function Plus(a: Sum, b: Sum): Sum {
    Sum(a.up + b.up, a.down + b.down)
  }

  /** Bytes of the records from one instant up to another, per direction; an absent count is none. */
  function Span(records: seq<Record>, from: Time, to: Time): Sum {
    if records == [] then Sum(0, 0)
    else
      var rest, last := Span(records[..|records| - 1], from, to), records[|records| - 1];
      if from <= last.at < to
      then Sum(rest.up + (if last.up.Some? then last.up.value else 0),
               rest.down + (if last.down.Some? then last.down.value else 0))
      else rest
  }

  function BucketSum(items: seq<Bucket>): Sum {
    if items == [] then Sum(0, 0)
    else
      var last := items[|items| - 1];
      Plus(BucketSum(items[..|items| - 1]), Sum(last.up, last.down))
  }

  function KeySum(g: Granularity, rows: seq<Record>, keys: seq<Time>): Sum {
    if keys == [] then Sum(0, 0)
    else
      var last := keys[|keys| - 1];
      Plus(KeySum(g, rows, keys[..|keys| - 1]), Sum(UpOf(g, rows, last), DownOf(g, rows, last)))
  }

  lemma {:induction false} ItemSum(g: Granularity, rows: seq<Record>, end: Time, keys: seq<Time>)
    ensures BucketSum(Items(g, rows, end, keys)) == KeySum(g, rows, keys)
  {
    hide UpOf, DownOf, Width;
    if keys != [] {
      var n := |keys| - 1;
      ItemSum(g, rows, end, keys[..n]);
      assert Items(g, rows, end, keys)[..n] == Items(g, rows, end, keys[..n]);
    }
  }

  lemma {:induction false} KeySumNext(g: Granularity, rows: seq<Record>, r: Record, keys: seq<Time>)
    requires Descending(keys)
    ensures KeySum(g, rows + [r], keys)
            == if KeyOf(g, r.at) in keys then Plus(KeySum(g, rows, keys), Sum(Count(r.up), Count(r.down)))
               else KeySum(g, rows, keys)
  {
    hide KeyOf, UpOf, DownOf;
    if keys != [] {
      var n := |keys| - 1;
      var init, last, key := keys[..n], keys[n], KeyOf(g, r.at);
      KeySumNext(g, rows, r, init);
      SumsAppend(g, rows, r, last);
      assert last !in init && (key in keys <==> key in init || key == last) by {
        assert keys == init + [last];
      }
    }
  }

  lemma {:induction false} NoSumOfKeys(g: Granularity, keys: seq<Time>)
    ensures KeySum(g, [], keys) == Sum(0, 0)
  {
    if keys != [] {
      NoSumOfKeys(g, keys[..|keys| - 1]);
    }
  }

  /** Buckets that hold every record of the window add up to it. */
  lemma {:induction false} AllSummed(g: Granularity, records: seq<Record>, start: Time, end: Time, keys: seq<Time>)
    requires Descending(keys)
    requires forall r :: r in records && start <= r.at < end ==> KeyOf(g, r.at) in keys
    ensures KeySum(g, Window(records, start, end), keys) == Span(records, start, end)
  {
    hide KeyOf, KeySum, UpOf, DownOf;
    if records == [] {
      NoSumOfKeys(g, keys);
    } else {
      var n := |records| - 1;
      assert records == records[..n] + [records[n]];
      AllSummed(g, records[..n], start, end, keys);
      KeySumNext(g, Window(records[..n], start, end), records[n], keys);
    }
  }

  /** A time lies in the hour or day that starts at a boundary exactly when it lies between this one and the next. */
  lemma KeyIs(g: Granularity, t: Time, key: Time)
    requires key % Width(g) == 0
    ensures KeyOf(g, t) == key <==> key <= t < key + Width(g)
  {
    if key <= t < key + Width(g) && KeyOf(g, t) != key {
      if KeyOf(g, t) < key {
        MultiplesApart(KeyOf(g, t), key, Width(g));
      } else {
        MultiplesApart(key, KeyOf(g, t), Width(g));
      }
    }
  }

  lemma {:induction false} BucketSpan(g: Granularity, records: seq<Record>, start: Time, before: Time, key: Time)
    requires key % Width(g) == 0
    ensures var rows := Window(records, start, before);
            Sum(UpOf(g, rows, key), DownOf(g, rows, key))
            == Span(records, if start <= key then key else start, Min(key + Width(g), before))
  {
    hide KeyOf;
    if records != [] {
      var n := |records| - 1;
      BucketSpan(g, records[..n], start, before, key);
      KeyIs(g, records[n].at, key);
      SumsAppend(g, Window(records[..n], start, before), records[n], key);
    }
  }

  /** Each item: a whole hour or day cut to the range, with the bytes of the records in it, per direction. */
  lemma BucketMeaning(g: Granularity, records: seq<Record>, start: Time, end: Time, i: nat)
    requires i < |Whole(g, records, start, end, end)|
    ensures var width := if g == Hour then 3_600_000_000 else 86_400_000_000;
            var item := Whole(g, records, start, end, end)[i];
            && item.start % width == 0
            && item.end == (if item.start + width <= end then item.start + width else end)
            && Sum(item.up, item.down) == Span(records, if start <= item.start then item.start else start, item.end)
            && item.total == item.up + item.down
  {
    hide KeyOf, Keys, Window, UpOf, DownOf, Span, Desc;
    var keys := Ordered(g, records, start, end);
    assert keys[i] in keys;
    CutKey(g, records, start, end, keys[i]);
    BucketSpan(g, records, start, end, keys[i]);
  }

  /** The range is refused when it is empty or longer than 7 days of hours or 90 days. */
  lemma LongestRanges()
    ensures Longest(Hour) == 604_800_000_000 && Longest(Day) == 7_776_000_000_000
  {
  }

  /** Across all pages no bucket repeats, and the buckets add up to the records of the range, per direction. */
  lemma RecordsCountedOnce(g: Granularity, records: seq<Record>, start: Time, end: Time, limit: nat)
    requires limit >= 1
    ensures var all := Joined(AllPages(g, records, start, end, end, limit));
            && (forall i, j :: 0 <= i < j < |all| ==> all[i].start > all[j].start)
            && BucketSum(all) == Span(records, start, end)
  {
    hide AllPages, Joined, Window, KeyOf;
    PagesAreWhole(g, records, start, end, end, limit);
    var rows := Window(records, start, end);
    var keys := Ordered(g, records, start, end);
    ItemSum(g, rows, end, keys);
    forall r | r in records && start <= r.at < end ensures KeyOf(g, r.at) in keys {
      WindowMembers(records, start, end, r);
      MemberKey(g, rows, r);
    }
    AllSummed(g, records, start, end, keys);
  }
}
