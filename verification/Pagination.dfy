/** Keyset pagination over (created_at DESC, id DESC), and what a client that follows the
    cursors sees while the table changes under it. */
module Pagination {

  import opened Options

  datatype Key = Key(createdAt: int, id: nat)

  const DEFAULT_LIMIT := 20
  const MAX_LIMIT := 100

  /** created_at < ts OR (created_at = ts AND id < row_id) */
  predicate Below(a: Key, b: Key) {
    a.createdAt < b.createdAt || (a.createdAt == b.createdAt && a.id < b.id)
  }

  // ----- cursors -----

  /** The library's text forms of a timestamp and of a row id. */
  datatype Codec = Codec(
    showTime: int -> string, readTime: string -> Option<int>,
    showId: nat -> string, readId: string -> Option<nat>)
  {
    /** Both forms read back, and an id's text has no underscore; a timestamp's may. */
    ghost predicate Faithful() {
      && (forall t :: readTime(showTime(t)) == Some(t))
      && (forall i: nat :: readId(showId(i)) == Some(i))
      && (forall i: nat :: '_' !in showId(i))
    }
  }

  function EncodeCursor(codec: Codec, k: Key): string {
    codec.showTime(k.createdAt) + "_" + codec.showId(k.id)
  }

  /** The position of the last underscore. */
  function LastUnderscore(s: string): (i: Option<nat>)
    ensures i.Some? ==> i.value < |s| && s[i.value] == '_' && '_' !in s[i.value + 1..]
    ensures i.None? ==> '_' !in s
  {
    if s == [] then None
    else if s[|s| - 1] == '_' then Some(|s| - 1)
    else
      assert s == s[..|s| - 1] + [s[|s| - 1]];
      LastUnderscore(s[..|s| - 1])
  }

  /** None is the "Invalid cursor format" error. */
  function DecodeCursor(codec: Codec, cursor: string): Option<Key> {
    match LastUnderscore(cursor)
    case None => None
    case Some(i) =>
      var time := codec.readTime(cursor[..i]);
      var id := codec.readId(cursor[i + 1..]);
      if time.Some? && id.Some? then Some(Key(time.value, id.value)) else None
  }

  lemma {:induction false} LastUnderscoreAt(s: string, i: nat)
    requires i < |s| && s[i] == '_' && '_' !in s[i + 1..]
    ensures LastUnderscore(s) == Some(i)
    decreases |s|
  {
    if i < |s| - 1 {
      var t := s[..|s| - 1];
      assert s[i + 1..] == t[i + 1..] + [s[|s| - 1]];
      LastUnderscoreAt(t, i);
    }
  }

  lemma CursorRoundTrip(codec: Codec, k: Key)
    requires codec.Faithful()
    ensures DecodeCursor(codec, EncodeCursor(codec, k)) == Some(k)
  {
    var time, id := codec.showTime(k.createdAt), codec.showId(k.id);
    var text := EncodeCursor(codec, k);
    assert text[|time|] == '_' && text[|time| + 1..] == id && text[..|time|] == time;
    LastUnderscoreAt(text, |time|);
  }

  // ----- one page -----

  ghost predicate Descending(s: seq<Key>) {
    forall i, j :: 0 <= i < j < |s| ==> Below(s[j], s[i])
  }

  ghost predicate IsGreatest(m: Key, s: set<Key>) {
    m in s && forall k :: k in s && k != m ==> Below(k, m)
  }

  lemma {:induction false} GreatestExists(s: set<Key>)
    requires s != {}
    ensures exists m :: IsGreatest(m, s)
    decreases |s|
  {
    var x :| x in s;
    var rest := s - {x};
    assert forall k :: k in s <==> k == x || k in rest;
    if rest == {} {
      assert IsGreatest(x, s);
    } else {
      GreatestExists(rest);
      var m :| IsGreatest(m, rest);
      assert IsGreatest(if Below(x, m) then m else x, s);
    }
  }

  /** ORDER BY created_at DESC, id DESC. */
  ghost function Ordered(s: set<Key>): (r: seq<Key>)
    ensures |r| == |s|
    ensures forall k :: k in r <==> k in s
    ensures Descending(r)
    decreases |s|
  {
    if s == {} then []
    else
      GreatestExists(s);
      var m :| IsGreatest(m, s);
      [m] + Ordered(s - {m})
  }

  /** Zero and absent limits mean the default. */
  function Clamp(limit: Option<int>): (n: int)
    ensures 1 <= n <= MAX_LIMIT
  {
    var l := if limit.None? || limit.value == 0 then DEFAULT_LIMIT else limit.value;
    if l < 1 then 1 else if l > MAX_LIMIT then MAX_LIMIT else l
  }

  datatype Page = Page(items: seq<Key>, next: Option<string>)

  ghost function Visible(table: set<Key>, after: Option<Key>): set<Key> {
    set k | k in table && (after.Some? ==> Below(k, after.value))
  }

  /** The query fetches one row more than the page holds, to learn whether there is another. */
  ghost function PageAfter(codec: Codec, table: set<Key>, after: Option<Key>, limit: Option<int>): Page {
    var n := Clamp(limit);
    var found := Ordered(Visible(table, after));
    var rows := if |found| > n + 1 then found[..n + 1] else found;
    var items := if |rows| > n then rows[..n] else rows;
    Page(items, if |rows| > n && items != [] then Some(EncodeCursor(codec, items[|items| - 1])) else None)
  }

  /** An absent or empty cursor asks for the first page; None is the invalid-cursor error. */
  ghost function Paginate(codec: Codec, table: set<Key>, cursor: Option<string>, limit: Option<int>): Option<Page> {
    if cursor.None? || cursor.value == "" then Some(PageAfter(codec, table, None, limit))
    else
      match DecodeCursor(codec, cursor.value)
      case None => None
      case Some(k) => Some(PageAfter(codec, table, Some(k), limit))
  }

  /** What one page promises: its rows are the greatest visible ones, and a next cursor appears
      exactly when some were left out. */
  lemma PageContents(codec: Codec, table: set<Key>, after: Option<Key>, limit: Option<int>)
    ensures var p := PageAfter(codec, table, after, limit);
            var visible := Visible(table, after);
            && Descending(p.items)
            && (forall k :: k in p.items ==> k in visible)
            && (p.next.None? ==> forall k :: k in visible ==> k in p.items)
            && (p.next.None? <==> |visible| <= Clamp(limit))
            && |p.items| == (if |visible| <= Clamp(limit) then |visible| else Clamp(limit))
            && (p.next.Some? ==>
                  && p.items != [] && p.next.value == EncodeCursor(codec, p.items[|p.items| - 1])
                  && (forall k :: k in visible ==> k in p.items || Below(k, p.items[|p.items| - 1])))
  {
    hide EncodeCursor;
    hide Ordered;
    hide Visible;
    var n := Clamp(limit);
    var found := Ordered(Visible(table, after));
    var p := PageAfter(codec, table, after, limit);
    if |found| > n {
      assert found[..n + 1][..n] == found[..n];
      CutDescending(found, n);
    }
  }

  lemma CutDescending(s: seq<Key>, n: nat)
    requires Descending(s) && 0 < n < |s|
    ensures Descending(s[..n]) && s[..n] != []
    ensures forall k :: k in s ==> k in s[..n] || Below(k, s[..n][n - 1])
    ensures forall k :: k in s[..n] ==> k in s
  {
    assert s == s[..n] + s[n..];
    forall k | k in s[n..]
      ensures Below(k, s[n - 1])
    {
      var i :| 0 <= i < |s[n..]| && s[n..][i] == k;
      assert s[n + i] == k;
    }
  }

  // ----- following the cursors -----

  /** The table and the requested limit at the time of one request. */
  datatype Visit = Visit(table: set<Key>, limit: Option<int>)

  /** The pages a client gets that starts at `cursor` and follows each next cursor until there is
      none, or the visits run out. An invalid cursor ends the walk. */
  ghost function Walk(codec: Codec, visits: seq<Visit>, cursor: Option<string>): (walk: seq<Page>)
    ensures |walk| <= |visits|
  {
    if visits == [] then []
    else
      match Paginate(codec, visits[0].table, cursor, visits[0].limit)
      case None => []
      case Some(p) => if p.next.None? then [p] else [p] + Walk(codec, visits[1..], p.next)
  }

  ghost predicate Finished(walk: seq<Page>) {
    walk != [] && walk[|walk| - 1].next.None?
  }

  ghost function Returned(walk: seq<Page>): seq<Key> {
    if walk == [] then [] else walk[0].items + Returned(walk[1..])
  }

  lemma ReturnedCons(p: Page, rest: seq<Page>)
    ensures Returned([p] + rest) == p.items + Returned(rest)
    ensures Returned([]) == []
  {
    assert ([p] + rest)[1..] == rest;
  }

  /** `cursor` is the start, or one the service handed out for row `after`. */
  ghost predicate Issued(codec: Codec, cursor: Option<string>, after: Option<Key>) {
    match after
    case None => cursor == None
    case Some(k) => cursor == Some(EncodeCursor(codec, k))
  }

  /** From an issued cursor a walk is the page after that row, and then the rest. */
  lemma WalkStep(codec: Codec, visits: seq<Visit>, cursor: Option<string>, after: Option<Key>)
    requires codec.Faithful() && Issued(codec, cursor, after) && visits != []
    ensures var p := PageAfter(codec, visits[0].table, after, visits[0].limit);
            Walk(codec, visits, cursor) == [p] + if p.next.None? then [] else Walk(codec, visits[1..], p.next)
  {
    if after.Some? {
      CursorRoundTrip(codec, after.value);
    }
  }

  ghost predicate AllBelow(s: seq<Key>, after: Option<Key>) {
    after.Some? ==> forall k :: k in s ==> Below(k, after.value)
  }

  lemma DescendingAppend(s: seq<Key>, t: seq<Key>)
    requires Descending(s) && Descending(t) && s != [] && AllBelow(t, Some(s[|s| - 1]))
    ensures Descending(s + t)
  {
    forall i, j | 0 <= i < |s| && 0 <= j < |t|
      ensures Below(t[j], s[i])
    {
      assert t[j] in t;
      assert i == |s| - 1 || Below(s[|s| - 1], s[i]);
    }
  }

  lemma PageDescends(codec: Codec, table: set<Key>, after: Option<Key>, limit: Option<int>)
    ensures var p := PageAfter(codec, table, after, limit);
            && Descending(p.items) && AllBelow(p.items, after)
            && (p.next.Some? ==> p.items != [] && p.next.value == EncodeCursor(codec, p.items[|p.items| - 1]))
  {
    hide PageAfter;
    hide EncodeCursor;
    PageContents(codec, table, after, limit);
  }

  lemma AllBelowThrough(s: seq<Key>, t: seq<Key>, after: Option<Key>)
    requires s != [] && AllBelow(s, after) && AllBelow(t, Some(s[|s| - 1]))
    ensures AllBelow(s + t, after)
  {
    assert s[|s| - 1] in s;
  }

  lemma DescendsOn(p: Page, rest: seq<Page>, after: Option<Key>)
    requires Descending(p.items) && AllBelow(p.items, after)
    requires rest == [] || (p.items != [] && Descending(Returned(rest))
             && AllBelow(Returned(rest), Some(p.items[|p.items| - 1])))
    ensures Descending(Returned([p] + rest)) && AllBelow(Returned([p] + rest), after)
  {
    ReturnedCons(p, rest);
    if rest != [] {
      DescendingAppend(p.items, Returned(rest));
      AllBelowThrough(p.items, Returned(rest), after);
    }
  }

  /** Whatever happens to the table between pages, and whatever limits are asked for, the keys
      come back in strictly decreasing order, so none comes twice. */
  lemma {:induction false} WalkDescends(codec: Codec, visits: seq<Visit>, cursor: Option<string>, after: Option<Key>)
    requires codec.Faithful() && Issued(codec, cursor, after)
    ensures Descending(Returned(Walk(codec, visits, cursor)))
    ensures AllBelow(Returned(Walk(codec, visits, cursor)), after)
    decreases |visits|
  {
    if visits == [] {
    } else {
      WalkStep(codec, visits, cursor, after);
      PageDescends(codec, visits[0].table, after, visits[0].limit);
      var p := PageAfter(codec, visits[0].table, after, visits[0].limit);
      if p.next.None? {
        DescendsOn(p, [], after);
      } else {
        WalkDescends(codec, visits[1..], p.next, Some(p.items[|p.items| - 1]));
        DescendsOn(p, Walk(codec, visits[1..], p.next), after);
      }
      hide *;
    }
  }

  lemma {:induction false} NoRowTwice(codec: Codec, visits: seq<Visit>, i: nat, j: nat)
    requires codec.Faithful() && i < j < |Returned(Walk(codec, visits, None))|
    ensures Returned(Walk(codec, visits, None))[i] != Returned(Walk(codec, visits, None))[j]
  {
    WalkDescends(codec, visits, None, None);
  }

  /** A walk that reaches a page without a next cursor has returned every row that was there at
      each of its requests. */
  lemma {:induction false} WalkMissesNothing(codec: Codec, visits: seq<Visit>, cursor: Option<string>,
          after: Option<Key>, k: Key)
    requires codec.Faithful() && Issued(codec, cursor, after)
    requires Finished(Walk(codec, visits, cursor))
    requires forall i :: 0 <= i < |Walk(codec, visits, cursor)| ==> k in visits[i].table
    requires after.Some? ==> Below(k, after.value)
    ensures k in Returned(Walk(codec, visits, cursor))
    decreases |visits|
  {
    var v := visits[0];
    WalkStep(codec, visits, cursor, after);
    PageContents(codec, v.table, after, v.limit);
    hide PageAfter;
    hide Walk;
    hide Returned;
    var p := PageAfter(codec, v.table, after, v.limit);
    assert k in visits[0].table;
    var rest := if p.next.None? then [] else Walk(codec, visits[1..], p.next);
    ReturnedCons(p, rest);
    if k !in p.items {
      assert forall i :: 0 <= i < |rest| ==> visits[1..][i] == visits[i + 1];
      WalkMissesNothing(codec, visits[1..], p.next, Some(p.items[|p.items| - 1]), k);
    }
  }

  lemma ItemsFromTable(codec: Codec, table: set<Key>, after: Option<Key>, limit: Option<int>)
    ensures forall k :: k in PageAfter(codec, table, after, limit).items ==> k in table
  {
    hide PageAfter;
    PageContents(codec, table, after, limit);
  }

  /** Each page's rows were in the table it was read from. */
  ghost predicate ReadFrom(walk: seq<Page>, visits: seq<Visit>) {
    |walk| <= |visits| &&
    forall i, k :: 0 <= i < |walk| && k in walk[i].items ==> k in visits[i].table
  }

  /** And returns no row that was not there when its page was read. */
  lemma {:induction false} WalkInventsNothing(codec: Codec, visits: seq<Visit>, cursor: Option<string>,
          after: Option<Key>)
    requires codec.Faithful() && Issued(codec, cursor, after)
    ensures ReadFrom(Walk(codec, visits, cursor), visits)
    decreases |visits|
  {
    if visits == [] {
    } else {
      hide PageAfter;
      hide Codec.Faithful;
      hide EncodeCursor;
      var v := visits[0];
      WalkStep(codec, visits, cursor, after);
      var p := PageAfter(codec, v.table, after, v.limit);
      ItemsFromTable(codec, v.table, after, v.limit);
      if p.next.Some? {
        PageDescends(codec, v.table, after, v.limit);
        WalkInventsNothing(codec, visits[1..], p.next, Some(p.items[|p.items| - 1]));
        ReadFromCons(p, Walk(codec, visits[1..], p.next), visits);
      } else {
        ReadFromCons(p, [], visits);
      }
    }
  }

  lemma ReadFromCons(p: Page, rest: seq<Page>, visits: seq<Visit>)
    requires visits != [] && ReadFrom(rest, visits[1..])
    requires forall k :: k in p.items ==> k in visits[0].table
    ensures ReadFrom([p] + rest, visits)
  {
    var walk := [p] + rest;
    forall i, k | 0 <= i < |walk| && k in walk[i].items
      ensures k in visits[i].table
    {
      if i > 0 {
        assert walk[i] == rest[i - 1] && visits[i] == visits[1..][i - 1];
      }
    }
  }

  // ----- how many pages -----

  function PagesFor(rows: nat, limit: int): nat
    requires limit >= 1
  {
    if rows <= limit then 1 else 1 + PagesFor(rows - limit, limit)
  }

  /** One page, or the least number of full pages that hold all the rows. */
  lemma {:induction false} PagesForIsCeiling(rows: nat, limit: int)
    requires limit >= 1
    ensures PagesFor(rows, limit) >= 1 && rows <= PagesFor(rows, limit) * limit
    ensures PagesFor(rows, limit) > 1 ==> (PagesFor(rows, limit) - 1) * limit < rows
  {
    if rows > limit {
      PagesForIsCeiling(rows - limit, limit);
    }
  }

  lemma RowsLeft(codec: Codec, table: set<Key>, after: Option<Key>, limit: Option<int>)
    ensures var p := PageAfter(codec, table, after, limit);
            && (p.next.None? <==> |Visible(table, after)| <= Clamp(limit))
            && (p.next.Some? ==>
                  && p.items != [] && p.next.value == EncodeCursor(codec, p.items[|p.items| - 1])
                  && |Visible(table, Some(p.items[|p.items| - 1]))| == |Visible(table, after)| - Clamp(limit))
  {
    hide PageAfter;
    hide Clamp;
    PageContents(codec, table, after, limit);
    var p := PageAfter(codec, table, after, limit);
    if p.next.Some? {
      var last := p.items[|p.items| - 1];
      var items := set k | k in p.items;
      DistinctCount(p.items);
      assert forall k :: k in p.items ==> k == last || Below(last, k);
      assert Visible(table, Some(last)) == Visible(table, after) - items;
      assert items <= Visible(table, after);
    }
  }

  lemma {:induction false} DistinctCount(s: seq<Key>)
    requires Descending(s)
    ensures |set k | k in s| == |s|
  {
    if s == [] {
    } else {
      var t := s[..|s| - 1];
      DistinctCount(t);
      assert (set k | k in s) == (set k | k in t) + {s[|s| - 1]};
    }
  }

  /** On a table that stays put, with the same limit each time, the walk finishes in
      ceil(rows / limit) pages, or in one empty page when there are no rows. */
  lemma {:induction false} FixedTableWalk(codec: Codec, table: set<Key>, limit: Option<int>, visits: seq<Visit>,
          cursor: Option<string>, after: Option<Key>)
    requires codec.Faithful() && Issued(codec, cursor, after)
    requires forall i :: 0 <= i < |visits| ==> visits[i] == Visit(table, limit)
    requires |visits| >= PagesFor(|Visible(table, after)|, Clamp(limit))
    ensures Finished(Walk(codec, visits, cursor))
    ensures |Walk(codec, visits, cursor)| == PagesFor(|Visible(table, after)|, Clamp(limit))
    decreases |visits|
  {
    hide PageAfter;
    hide Walk;
    hide Visible;
    hide Clamp;
    hide EncodeCursor;
    WalkStep(codec, visits, cursor, after);
    RowsLeft(codec, table, after, limit);
    var p := PageAfter(codec, table, after, limit);
    if p.next.Some? {
      FixedTableWalk(codec, table, limit, visits[1..], p.next, Some(p.items[|p.items| - 1]));
    }
  }

  // ----- newest first, in terms of times and ids -----

  /** A page lists its rows by falling time and, within one time, by falling id. */
  lemma PageNewestFirst(codec: Codec, table: set<Key>, after: Option<Key>, limit: Option<int>, i: nat, j: nat)
    requires i < j < |PageAfter(codec, table, after, limit).items|
    ensures var items := PageAfter(codec, table, after, limit).items;
            && items[j].createdAt <= items[i].createdAt
            && (items[j].createdAt == items[i].createdAt ==> items[j].id < items[i].id)
  {
    hide PageAfter;
    PageContents(codec, table, after, limit);
  }

  /** It holds rows of the table only, and those it leaves out although they come after the cursor's
      row are no newer than its last: older, or as old with a smaller id. */
  lemma PageTakesNewest(codec: Codec, table: set<Key>, after: Option<Key>, limit: Option<int>, k: Key)
    requires k in table && k !in PageAfter(codec, table, after, limit).items
    requires after.Some? ==>
               k.createdAt < after.value.createdAt || (k.createdAt == after.value.createdAt && k.id < after.value.id)
    ensures var p := PageAfter(codec, table, after, limit);
            && p.next.Some? && p.items != []
            && var last := p.items[|p.items| - 1];
               k.createdAt < last.createdAt || (k.createdAt == last.createdAt && k.id < last.id)
  {
    hide PageAfter;
    PageContents(codec, table, after, limit);
  }

  /** After a cursor every row is older than the cursor's, or as old with a smaller id. */
  lemma PageAfterCursor(codec: Codec, table: set<Key>, after: Key, limit: Option<int>, k: Key)
    requires k in PageAfter(codec, table, Some(after), limit).items
    ensures k in table && (k.createdAt < after.createdAt || (k.createdAt == after.createdAt && k.id < after.id))
  {
    hide PageAfter;
    PageContents(codec, table, Some(after), limit);
  }

  /** A page has as many of the visible rows as were asked for: 20 by default, never more than 100. */
  lemma PageSize(codec: Codec, table: set<Key>, limit: Option<int>)
    ensures var n := match limit
                     case None => 20
                     case Some(l) => if l == 0 then 20 else if l < 1 then 1 else if l > 100 then 100 else l;
            |PageAfter(codec, table, None, limit).items| == if |table| <= n then |table| else n
  {
    hide PageAfter;
    PageContents(codec, table, None, limit);
    assert Visible(table, None) == table;
  }

  /** A whole walk from the start lists rows newest first, over whatever tables. */
  lemma WalkNewestFirst(codec: Codec, visits: seq<Visit>, i: nat, j: nat)
    requires codec.Faithful() && i < j < |Returned(Walk(codec, visits, None))|
    ensures var rows := Returned(Walk(codec, visits, None));
            && rows[j].createdAt <= rows[i].createdAt
            && (rows[j].createdAt == rows[i].createdAt ==> rows[j].id < rows[i].id)
  {
    WalkDescends(codec, visits, None, None);
    hide Walk;
    hide Returned;
  }

  /** A cursor is read as the text before its last underscore and the text after it, and is invalid
      if there is none or either does not read. */
  lemma DecodeIff(codec: Codec, cursor: string, k: Key)
    ensures DecodeCursor(codec, cursor) == Some(k) <==>
            exists i :: 0 <= i < |cursor| && cursor[i] == '_' && '_' !in cursor[i + 1..]
                        && codec.readTime(cursor[..i]) == Some(k.createdAt)
                        && codec.readId(cursor[i + 1..]) == Some(k.id)
  {
    if i :| 0 <= i < |cursor| && cursor[i] == '_' && '_' !in cursor[i + 1..]
            && codec.readTime(cursor[..i]) == Some(k.createdAt) && codec.readId(cursor[i + 1..]) == Some(k.id) {
      LastUnderscoreAt(cursor, i);
    }
  }

  /** An empty cursor asks for the first page, and one that does not read is an error. */
  lemma CursorCases(codec: Codec, table: set<Key>, cursor: string, limit: Option<int>)
    ensures Paginate(codec, table, Some(""), limit) == Paginate(codec, table, None, limit)
    ensures Paginate(codec, table, None, limit) == Some(PageAfter(codec, table, None, limit))
    ensures cursor != "" && '_' !in cursor ==> Paginate(codec, table, Some(cursor), limit) == None
  {
    hide PageAfter;
  }
}
