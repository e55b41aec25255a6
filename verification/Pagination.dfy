/**
 Listing a folder page by page: a keyset query resumed from an opaque cursor, against the
 single sorted listing it stands for.

 The cursor text is modelled after JSON and base64 decoding, instants are integers shown
 in decimal, and names are compared by whatever total order the database collation is.
 */
module Pagination {
  import opened Outcomes
  import opened Decimals

  type Id = nat

  datatype Kind = Folder | File(size: nat, extension: string)

  datatype Row = Row(id: Id, owner: nat, parent: Option<Id>, kind: Kind, name: string, normalized: string,
                     updated: int, deleted: bool)

  datatype SortField = ByName | ByDate | BySize | ByType

  datatype Filters = Filters(
    nameContains: Option<string>, folders: Option<bool>, extension: Option<string>,
    minimumSize: Option<int>, maximumSize: Option<int>, modifiedFrom: Option<int>, modifiedTo: Option<int>)

  /** What a decoded cursor may hold: nothing usable, or fields of which some may be missing. */
  datatype Cursor =
    | Unreadable
    | Fields(version: int, sort: SortField, ascending: bool, key: Option<string>, id: Option<Id>)

  datatype Query = Query(owner: nat, folder: Id, limit: int, sort: SortField, ascending: bool, filters: Filters)

  datatype Page = Page(items: seq<Row>, next: Option<Cursor>)

  datatype ListError = InvalidLimit | InvalidFilters | InvalidCursor | NotFound

  datatype Key = Text(text: string) | Number(value: int)

  /**
   The database: rows with distinct ids, its collation, and the normalization names went through
   when they were stored.
   */
  datatype Database = Database(rows: seq<Row>, collate: (string, string) -> bool, normalize: string -> string)

  // ---------------------------------------------------------------------------------
  // Order
  // ---------------------------------------------------------------------------------

  function KindText(k: Kind): string {
    if k.Folder? then "folder" else "file"
  }

  /** Folders have no size row; the query puts -1 in its place. */
  function SizeOf(r: Row): int {
    if r.kind.File? then r.kind.size else -1
  }

  function SortKey(r: Row, sort: SortField): Key {
    match sort
    case ByName => Text(r.normalized)
    case ByDate => Number(r.updated)
    case BySize => Number(SizeOf(r))
    case ByType => Text(KindText(r.kind))
  }

  predicate KeyLess(d: Database, a: Key, b: Key) {
    match (a, b)
    case (Text(s), Text(t)) => s != t && d.collate(s, t)
    case (Number(m), Number(n)) => m < n
    case _ => false
  }

  /** Row-wise comparison of (sort key, id). */
  predicate TupleLess(d: Database, a: Key, i: Id, b: Key, j: Id) {
    KeyLess(d, a, b) || (a == b && i < j)
  }

  /** One row comes strictly before another in the direction asked for. */
  predicate Ahead(d: Database, q: Query, a: Row, b: Row) {
    if q.ascending then TupleLess(d, SortKey(a, q.sort), a.id, SortKey(b, q.sort), b.id)
    else TupleLess(d, SortKey(b, q.sort), b.id, SortKey(a, q.sort), a.id)
  }

  ghost predicate TotalOrder(le: (string, string) -> bool) {
    && (forall s, t :: le(s, t) || le(t, s))
    && (forall s, t :: le(s, t) && le(t, s) ==> s == t)
    && (forall s, t, u :: le(s, t) && le(t, u) ==> le(s, u))
  }

  ghost predicate DatabaseOk(d: Database) {
    && TotalOrder(d.collate)
    && (forall i, j | 0 <= i < j < |d.rows| :: d.rows[i].id != d.rows[j].id)
    && (forall i | 0 <= i < |d.rows| :: d.rows[i].normalized == d.normalize(d.rows[i].name))
  }

  // ---------------------------------------------------------------------------------
  // The query
  // ---------------------------------------------------------------------------------

  predicate StartsAt(text: string, part: string, i: nat) {
    i + |part| <= |text| && text[i..i + |part|] == part
  }

  predicate Contains(text: string, part: string) {
    exists i | 0 <= i <= |text| :: StartsAt(text, part, i)
  }

  /** A condition on the file's metadata row never holds for a folder, which has none. */
  predicate Matches(r: Row, f: Filters) {
    && (f.nameContains.Some? ==> Contains(r.normalized, f.nameContains.value))
    && (f.folders.Some? ==> (r.kind.Folder? <==> f.folders.value))
    && (f.extension.Some? ==> r.kind.File? && r.kind.extension == f.extension.value)
    && (f.minimumSize.Some? ==> r.kind.File? && f.minimumSize.value <= r.kind.size)
    && (f.maximumSize.Some? ==> r.kind.File? && r.kind.size <= f.maximumSize.value)
    && (f.modifiedFrom.Some? ==> f.modifiedFrom.value <= r.updated)
    && (f.modifiedTo.Some? ==> r.updated <= f.modifiedTo.value)
  }

  predicate Visible(r: Row, q: Query) {
    r.owner == q.owner && r.parent == Some(q.folder) && !r.deleted && Matches(r, q.filters)
  }

  /** The position a cursor names. */
  datatype Place = Place(key: Key, id: Id)

  predicate Past(d: Database, q: Query, r: Row, place: Option<Place>) {
    place.Some? ==>
      if q.ascending then TupleLess(d, place.value.key, place.value.id, SortKey(r, q.sort), r.id)
      else TupleLess(d, SortKey(r, q.sort), r.id, place.value.key, place.value.id)
  }

  function Selected(d: Database, q: Query, rows: seq<Row>, place: Option<Place>): seq<Row> {
    if rows == [] then []
    else if Visible(rows[0], q) && Past(d, q, rows[0], place) then [rows[0]] + Selected(d, q, rows[1..], place)
    else Selected(d, q, rows[1..], place)
  }

  function Inserted(d: Database, q: Query, rows: seq<Row>, r: Row): seq<Row> {
    if rows == [] then [r]
    else if Ahead(d, q, r, rows[0]) then [r] + rows
    else [rows[0]] + Inserted(d, q, rows[1..], r)
  }

  function Sorted(d: Database, q: Query, rows: seq<Row>): seq<Row> {
    if rows == [] then [] else Inserted(d, q, Sorted(d, q, rows[1..]), rows[0])
  }

  /** At most `limit` rows behind the cursor, and whether there is one more. */
  function ListChildren(d: Database, q: Query, place: Option<Place>): (seq<Row>, bool)
    requires q.limit >= 0
  {
    var rows := Sorted(d, q, Selected(d, q, d.rows, place));
    if |rows| > q.limit then (rows[..q.limit], true) else (rows, false)
  }

  // ---------------------------------------------------------------------------------
  // Cursors
  // ---------------------------------------------------------------------------------

  /** The key as the last item of a page spells it: normalized from the visible name, -1 for a folder's size. */
  function CursorKey(d: Database, r: Row, sort: SortField): string {
    match sort
    case ByName => d.normalize(r.name)
    case ByDate => Show(r.updated)
    case BySize => Show(if r.kind.File? then r.kind.size else -1)
    case ByType => KindText(r.kind)
  }

  function EncodeCursor(d: Database, r: Row, q: Query): Cursor {
    Fields(1, q.sort, q.ascending, Some(CursorKey(d, r, q.sort)), Some(r.id))
  }

  function CursorValue(text: string, sort: SortField): Option<Key> {
    match sort
    case ByName | ByType => Some(Text(text))
    case ByDate | BySize => if Parse(text).Some? then Some(Number(Parse(text).value)) else None
  }

  function DecodeCursor(c: Option<Cursor>, q: Query): Result<Option<Place>, ListError> {
    if c.None? then Ok(None)
    else if c.value.Unreadable? || c.value.version != 1 || c.value.sort != q.sort || c.value.ascending != q.ascending
            || c.value.key.None? || c.value.id.None? then Err(InvalidCursor)
    else
      var key := CursorValue(c.value.key.value, q.sort);
      if key.None? then Err(InvalidCursor) else Ok(Some(Place(key.value, c.value.id.value)))
  }

  predicate FiltersOk(f: Filters) {
    && (f.minimumSize.Some? ==> f.minimumSize.value >= 0)
    && (f.maximumSize.Some? ==> f.maximumSize.value >= 0)
    && (f.minimumSize.Some? && f.maximumSize.Some? ==> f.minimumSize.value <= f.maximumSize.value)
    && (f.modifiedFrom.Some? && f.modifiedTo.Some? ==> f.modifiedFrom.value <= f.modifiedTo.value)
  }

  predicate IsOwnedFolder(d: Database, q: Query) {
    exists i | 0 <= i < |d.rows| :: d.rows[i].id == q.folder && d.rows[i].kind.Folder? && !d.rows[i].deleted
      && d.rows[i].owner == q.owner
  }

  function ListFolder(d: Database, q: Query, cursor: Option<Cursor>): Result<Page, ListError> {
    if !(1 <= q.limit <= 200) then Err(InvalidLimit)
    else if !FiltersOk(q.filters) then Err(InvalidFilters)
    else
      var place := DecodeCursor(cursor, q);
      if place.Err? then Err(InvalidCursor)
      else if !IsOwnedFolder(d, q) then Err(NotFound)
      else
        var (items, more) := ListChildren(d, q, place.value);
        Ok(Page(items, if more && items != [] then Some(EncodeCursor(d, items[|items| - 1], q)) else None))
  }

  // ---------------------------------------------------------------------------------
  // Sorting facts
  // ---------------------------------------------------------------------------------

  /** Strictly ordered, so in particular without repetition. */
  ghost predicate InOrder(d: Database, q: Query, rows: seq<Row>) {
    forall i, j | 0 <= i < j < |rows| :: Ahead(d, q, rows[i], rows[j])
  }

  lemma KeyOrder(d: Database, a: Key, b: Key, c: Key)
    requires TotalOrder(d.collate)
    ensures !(KeyLess(d, a, b) && KeyLess(d, b, a)) && !KeyLess(d, a, a)
    ensures KeyLess(d, a, b) && KeyLess(d, b, c) ==> KeyLess(d, a, c)
    ensures a.Text? == b.Text? && a != b ==> KeyLess(d, a, b) || KeyLess(d, b, a)
  {
  }

  lemma AheadOrder(d: Database, q: Query, a: Row, b: Row, c: Row)
    requires TotalOrder(d.collate)
    ensures !(Ahead(d, q, a, b) && Ahead(d, q, b, a))
    ensures Ahead(d, q, a, b) && Ahead(d, q, b, c) ==> Ahead(d, q, a, c)
    ensures a.id != b.id ==> Ahead(d, q, a, b) || Ahead(d, q, b, a)
  {
    var ka, kb, kc := SortKey(a, q.sort), SortKey(b, q.sort), SortKey(c, q.sort);
    KeyOrder(d, ka, kb, kc);
    KeyOrder(d, kc, kb, ka);
    assert ka.Text? == kb.Text?;
  }

  lemma {:induction false} InsertedInOrder(d: Database, q: Query, rows: seq<Row>, r: Row)
    requires TotalOrder(d.collate) && InOrder(d, q, rows) && forall i | 0 <= i < |rows| :: rows[i].id != r.id
    ensures InOrder(d, q, Inserted(d, q, rows, r))
    ensures forall x :: x in Inserted(d, q, rows, r) <==> x in rows || x == r
  {
    if rows == [] {
    } else if Ahead(d, q, r, rows[0]) {
      forall j | 0 <= j < |rows| ensures Ahead(d, q, r, rows[j]) {
        AheadOrder(d, q, r, rows[0], rows[j]);
      }
    } else {
      InsertedInOrder(d, q, rows[1..], r);
      AheadOrder(d, q, r, rows[0], r);
      var rest := Inserted(d, q, rows[1..], r);
      forall j | 0 <= j < |rest| ensures Ahead(d, q, rows[0], rest[j]) {
        assert rest[j] in rows[1..] || rest[j] == r;
      }
    }
  }

  predicate DistinctIds(rows: seq<Row>) {
    forall i, j | 0 <= i < j < |rows| :: rows[i].id != rows[j].id
  }

  lemma {:induction false} SortedInOrder(d: Database, q: Query, rows: seq<Row>)
    requires TotalOrder(d.collate) && DistinctIds(rows)
    ensures InOrder(d, q, Sorted(d, q, rows)) && forall x :: x in Sorted(d, q, rows) <==> x in rows
  {
    if rows != [] {
      SortedInOrder(d, q, rows[1..]);
      var rest := Sorted(d, q, rows[1..]);
      forall i | 0 <= i < |rest| ensures rest[i].id != rows[0].id {
        assert rest[i] in rows[1..];
      }
      InsertedInOrder(d, q, rest, rows[0]);
    }
  }

  lemma {:induction false} SelectedRows(d: Database, q: Query, rows: seq<Row>, place: Option<Place>)
    requires DistinctIds(rows)
    ensures DistinctIds(Selected(d, q, rows, place))
    ensures forall x :: x in Selected(d, q, rows, place) <==> x in rows && Visible(x, q) && Past(d, q, x, place)
  {
    if rows != [] {
      SelectedRows(d, q, rows[1..], place);
      var rest := Selected(d, q, rows[1..], place);
      forall i | 0 <= i < |rest| ensures rest[i].id != rows[0].id {
        assert rest[i] in rows[1..];
      }
    }
  }

  lemma FirstInOrder(d: Database, q: Query, a: seq<Row>, b: seq<Row>)
    requires TotalOrder(d.collate) && InOrder(d, q, a) && InOrder(d, q, b) && forall x :: x in a <==> x in b
    requires a != [] && b != []
    ensures a[0] == b[0]
  {
    assert a[0] in b && b[0] in a;
    var i :| 0 <= i < |b| && b[i] == a[0];
    var j :| 0 <= j < |a| && a[j] == b[0];
    AheadOrder(d, q, a[0], b[0], a[0]);
  }

  lemma SameEmptiness(a: seq<Row>, b: seq<Row>)
    requires forall x :: x in a <==> x in b
    ensures a != [] ==> b != []
  {
    if a != [] { assert a[0] in a; }
  }

  /** A strictly ordered listing is determined by its rows. */
  lemma {:induction false} SameRowsSameListing(d: Database, q: Query, a: seq<Row>, b: seq<Row>)
    requires TotalOrder(d.collate) && InOrder(d, q, a) && InOrder(d, q, b) && forall x :: x in a <==> x in b
    ensures a == b
    decreases |a|
  {
    SameEmptiness(b, a);
    if a != [] {
      assert a[0] in b;
      FirstInOrder(d, q, a, b);
      forall x ensures x in a[1..] <==> x in b[1..] {
        NotAgain(d, q, a);
        NotAgain(d, q, b);
      }
      SameRowsSameListing(d, q, a[1..], b[1..]);
    }
  }

  lemma NotAgain(d: Database, q: Query, a: seq<Row>)
    requires TotalOrder(d.collate) && InOrder(d, q, a) && a != []
    ensures forall x :: x in a[1..] <==> x in a && x != a[0]
  {
    AheadOrder(d, q, a[0], a[0], a[0]);
    assert a == [a[0]] + a[1..];
  }

  // ---------------------------------------------------------------------------------
  // Paging
  // ---------------------------------------------------------------------------------

  /** The whole listing, as one sorted query without cursor or limit would return it. */
  function Listing(d: Database, q: Query): seq<Row> {
    Sorted(d, q, Selected(d, q, d.rows, None))
  }

  lemma ListingFacts(d: Database, q: Query)
    requires DatabaseOk(d)
    ensures InOrder(d, q, Listing(d, q)) && forall x :: x in Listing(d, q) <==> x in d.rows && Visible(x, q)
  {
    SelectedRows(d, q, d.rows, None);
    SortedInOrder(d, q, Selected(d, q, d.rows, None));
  }

  function PlaceAt(d: Database, q: Query, i: nat): Option<Place>
    requires i <= |Listing(d, q)|
  {
    if i == 0 then None else var r := Listing(d, q)[i - 1]; Some(Place(SortKey(r, q.sort), r.id))
  }

  function CursorAt(d: Database, q: Query, i: nat): Option<Cursor>
    requires i <= |Listing(d, q)|
  {
    if i == 0 then None else Some(EncodeCursor(d, Listing(d, q)[i - 1], q))
  }

  /** In a strictly ordered list, the rows past a position are the ones its row is ahead of. */
  lemma PastIsRest(d: Database, q: Query, rows: seq<Row>, i: nat, x: Row)
    requires TotalOrder(d.collate) && InOrder(d, q, rows) && 1 <= i <= |rows|
    ensures x in rows[i..] <==> x in rows && Ahead(d, q, rows[i - 1], x)
  {
    if x in rows && Ahead(d, q, rows[i - 1], x) {
      var k :| 0 <= k < |rows| && rows[k] == x;
      AheadOrder(d, q, rows[i - 1], x, x);
      assert k >= i;
      assert rows[i..][k - i] == x;
    }
    if x in rows[i..] {
      var k :| 0 <= k < |rows| - i && rows[i..][k] == x;
      assert rows[i + k] == x;
    }
  }

  /** Resuming behind the i-th row yields the listing from there, nothing skipped and nothing twice. */
  lemma ResumesAt(d: Database, q: Query, i: nat)
    requires DatabaseOk(d) && i <= |Listing(d, q)|
    ensures Sorted(d, q, Selected(d, q, d.rows, PlaceAt(d, q, i))) == Listing(d, q)[i..]
  {
    var all := Listing(d, q);
    var place := PlaceAt(d, q, i);
    if i > 0 {
      ListingFacts(d, q);
      SelectedRows(d, q, d.rows, place);
      SortedInOrder(d, q, Selected(d, q, d.rows, place));
      forall x ensures x in Sorted(d, q, Selected(d, q, d.rows, place)) <==> x in all[i..] {
        PastIsRest(d, q, all, i, x);
      }
      SameRowsSameListing(d, q, Sorted(d, q, Selected(d, q, d.rows, place)), all[i..]);
    }
  }

  /** The key spelled into a cursor is read back as the very key the query sorts by, for every field. */
  lemma CursorReadsBack(d: Database, q: Query, r: Row)
    requires r.normalized == d.normalize(r.name)
    ensures DecodeCursor(Some(EncodeCursor(d, r, q)), q) == Ok(Some(Place(SortKey(r, q.sort), r.id)))
  {
    ShowReads(r.updated);
    ShowReads(SizeOf(r));
  }

  /** A cursor made for another field or direction is refused. */
  lemma CursorIsBound(d: Database, q: Query, q': Query, r: Row)
    requires q.sort != q'.sort || q.ascending != q'.ascending
    ensures DecodeCursor(Some(EncodeCursor(d, r, q)), q') == Err(InvalidCursor)
  {
  }

  predicate Answerable(d: Database, q: Query) {
    1 <= q.limit <= 200 && FiltersOk(q.filters) && IsOwnedFolder(d, q)
  }

  function Stop(n: nat, i: nat, limit: nat): nat {
    if i + limit < n then i + limit else n
  }

  /** The page that belongs at the i-th row of a listing. */
  function PageOf(all: seq<Row>, cursorAt: nat -> Option<Cursor>, limit: nat, i: nat): Page
    requires i <= |all|
  {
    var stop := Stop(|all|, i, limit);
    Page(all[i..stop], if stop < |all| then cursorAt(stop) else None)
  }

  function Cursors(d: Database, q: Query): nat -> Option<Cursor> {
    (i: nat) => if i <= |Listing(d, q)| then CursorAt(d, q, i) else None
  }

  lemma PlaceReadsBack(d: Database, q: Query, i: nat)
    requires DatabaseOk(d) && i <= |Listing(d, q)|
    ensures DecodeCursor(CursorAt(d, q, i), q) == Ok(PlaceAt(d, q, i))
  {
    if i > 0 {
      ListingFacts(d, q);
      assert Listing(d, q)[i - 1] in d.rows;
      CursorReadsBack(d, q, Listing(d, q)[i - 1]);
    }
  }

  lemma CutOff(all: seq<Row>, i: nat, limit: nat)
    requires i <= |all| && limit >= 1
    ensures i + limit < |all| ==>
              all[i..][..limit] == all[i..i + limit]
              && all[i..][..limit][limit - 1] == all[i + limit - 1]
    ensures i + limit >= |all| ==> all[i..] == all[i..|all|]
  {
  }

  /** Any page is the piece of the listing at its cursor, and its `next` is the cursor of the following piece. */
  lemma PageAt(d: Database, q: Query, i: nat)
    requires DatabaseOk(d) && Answerable(d, q) && i <= |Listing(d, q)|
    ensures ListFolder(d, q, CursorAt(d, q, i)) == Ok(PageOf(Listing(d, q), Cursors(d, q), q.limit, i))
  {
    ResumesAt(d, q, i);
    PlaceReadsBack(d, q, i);
    CutOff(Listing(d, q), i, q.limit);
  }

  /** The pages a client gets that starts at a cursor and follows every `next` until there is none. */
  predicate Walk(list: Option<Cursor> -> Result<Page, ListError>, cursor: Option<Cursor>, pages: seq<Page>)
    decreases |pages|
  {
    && pages != []
    && list(cursor) == Ok(pages[0])
    && if pages[0].next.None? then |pages| == 1 else Walk(list, pages[0].next, pages[1..])
  }

  function Items(pages: seq<Page>): seq<Row> {
    if pages == [] then [] else pages[0].items + Items(pages[1..])
  }

  /** Pages needed for n rows: none is empty except the only page of an empty listing. */
  function PagesFor(n: nat, limit: nat): nat
    requires limit > 0
  {
    if n <= limit then 1 else 1 + PagesFor(n - limit, limit)
  }

  /** As few pages as n rows fit into, and one for an empty listing. */
  lemma {:induction false} PagesAreFewest(n: nat, limit: nat)
    requires limit > 0
    ensures n <= PagesFor(n, limit) * limit
    ensures n > 0 ==> (PagesFor(n, limit) - 1) * limit < n
    ensures n == 0 ==> PagesFor(n, limit) == 1
  {
    if n > limit {
      PagesAreFewest(n - limit, limit);
      var k := PagesFor(n - limit, limit);
      assert (k + 1) * limit == k * limit + limit;
      assert k * limit == (k - 1) * limit + limit;
    }
  }

  predicate Served(list: Option<Cursor> -> Result<Page, ListError>, all: seq<Row>, cursorAt: nat -> Option<Cursor>,
                   limit: nat, i: nat)
    requires i <= |all|
  {
    list(cursorAt(i)) == Ok(PageOf(all, cursorAt, limit, i)) && (i > 0 ==> cursorAt(i).Some?)
  }

  /** A listing service that answers the i-th cursor with the i-th piece. */
  ghost predicate Serves(list: Option<Cursor> -> Result<Page, ListError>, all: seq<Row>,
                         cursorAt: nat -> Option<Cursor>, limit: nat)
  {
    forall i: nat {:trigger Served(list, all, cursorAt, limit, i)} | i <= |all| :: Served(list, all, cursorAt, limit, i)
  }

  /** A walk begins with the page at its cursor and, if that is not the last, goes on from the page's end. */
  lemma WalkStep(list: Option<Cursor> -> Result<Page, ListError>, all: seq<Row>, cursorAt: nat -> Option<Cursor>,
                 limit: nat, i: nat, pages: seq<Page>)
    requires i <= |all| && Walk(list, cursorAt(i), pages) && Served(list, all, cursorAt, limit, i)
    requires var stop := Stop(|all|, i, limit); stop < |all| ==> cursorAt(stop).Some?
    ensures var stop := Stop(|all|, i, limit);
            && pages != [] && pages[0].items == all[i..stop]
            && if stop < |all| then Walk(list, cursorAt(stop), pages[1..]) else |pages| == 1
  {
  }

  lemma {:induction false} WalkFrom(list: Option<Cursor> -> Result<Page, ListError>, all: seq<Row>,
                                    cursorAt: nat -> Option<Cursor>, limit: nat, i: nat, pages: seq<Page>)
    requires limit > 0 && Serves(list, all, cursorAt, limit) && i <= |all| && Walk(list, cursorAt(i), pages)
    ensures Items(pages) == all[i..] && |pages| == PagesFor(|all| - i, limit)
    decreases |pages|
  {
    var stop := Stop(|all|, i, limit);
    assert Served(list, all, cursorAt, limit, i) && Served(list, all, cursorAt, limit, stop);
    WalkStep(list, all, cursorAt, limit, i, pages);
    if stop < |all| {
      WalkFrom(list, all, cursorAt, limit, stop, pages[1..]);
      ItemsJoin(pages, all, i, stop);
    } else {
      assert Items(pages[1..]) == [];
    }
  }

  lemma WholeWalk(list: Option<Cursor> -> Result<Page, ListError>, all: seq<Row>, cursorAt: nat -> Option<Cursor>,
                  limit: nat, pages: seq<Page>)
    requires limit > 0 && Serves(list, all, cursorAt, limit) && cursorAt(0).None? && Walk(list, None, pages)
    ensures Items(pages) == all && |pages| == PagesFor(|all|, limit)
  {
    WalkFrom(list, all, cursorAt, limit, 0, pages);
    assert all[0..] == all;
  }

  lemma ItemsJoin(pages: seq<Page>, all: seq<Row>, i: nat, stop: nat)
    requires i <= stop <= |all| && pages != [] && pages[0].items == all[i..stop] && Items(pages[1..]) == all[stop..]
    ensures Items(pages) == all[i..]
  {
  }

  lemma {:induction false} WalkEnds(list: Option<Cursor> -> Result<Page, ListError>, all: seq<Row>,
                                    cursorAt: nat -> Option<Cursor>, limit: nat, i: nat) returns (pages: seq<Page>)
    requires limit > 0 && Serves(list, all, cursorAt, limit) && i <= |all|
    ensures Walk(list, cursorAt(i), pages)
    decreases |all| - i
  {
    var page := PageOf(all, cursorAt, limit, i);
    var stop := Stop(|all|, i, limit);
    assert Served(list, all, cursorAt, limit, i) && Served(list, all, cursorAt, limit, stop);
    if stop < |all| {
      var rest := WalkEnds(list, all, cursorAt, limit, stop);
      pages := [page] + rest;
      assert pages[1..] == rest;
    } else {
      pages := [page];
    }
  }

  /** The use case for one query, as a service from cursors to pages. */
  function Service(d: Database, q: Query): Option<Cursor> -> Result<Page, ListError> {
    c => ListFolder(d, q, c)
  }

  lemma FolderServes(d: Database, q: Query)
    requires DatabaseOk(d) && Answerable(d, q)
    ensures Serves(Service(d, q), Listing(d, q), Cursors(d, q), q.limit)
  {
    var all := Listing(d, q);
    forall i: nat | i <= |all| ensures Served(Service(d, q), all, Cursors(d, q), q.limit, i) {
      PageAt(d, q, i);
    }
  }

  /**
   Following the cursors from the start on fixed rows yields every matching row exactly once,
   in order, in the least number of pages, for each sort field and both directions; and the
   walk ends.
   */
  lemma PagesAreTheListing(d: Database, q: Query, pages: seq<Page>)
    requires DatabaseOk(d) && Answerable(d, q) && Walk(Service(d, q), None, pages)
    ensures Items(pages) == Listing(d, q) && |pages| == PagesFor(|Listing(d, q)|, q.limit)
    ensures InOrder(d, q, Items(pages))
    ensures forall x :: x in Items(pages) <==> x in d.rows && Visible(x, q)
  {
    FolderServes(d, q);
    WholeWalk(Service(d, q), Listing(d, q), Cursors(d, q), q.limit, pages);
    ListingFacts(d, q);
  }

  lemma PagingEnds(d: Database, q: Query) returns (pages: seq<Page>)
    requires DatabaseOk(d) && Answerable(d, q)
    ensures Walk(Service(d, q), None, pages)
  {
    FolderServes(d, q);
    pages := WalkEnds(Service(d, q), Listing(d, q), Cursors(d, q), q.limit, 0);
  }

  // ---------------------------------------------------------------------------------
  // What a listing shows, in which order, and when it is refused
  // ---------------------------------------------------------------------------------

  /** The listing holds exactly the owner's rows in the folder that are not trashed and pass every filter given. */
  lemma ListedIff(d: Database, q: Query, r: Row)
    requires DatabaseOk(d)
    ensures r in Listing(d, q) <==>
            && r in d.rows && r.owner == q.owner && r.parent == Some(q.folder) && !r.deleted
            && (q.filters.nameContains.Some? ==>
                  exists i: nat, j: nat | i <= j <= |r.normalized| ::
                    r.normalized[i..j] == q.filters.nameContains.value)
            && (q.filters.folders == Some(true) ==> r.kind.Folder?)
            && (q.filters.folders == Some(false) ==> r.kind.File?)
            && (q.filters.extension.Some? ==> r.kind.File? && r.kind.extension == q.filters.extension.value)
            && (q.filters.minimumSize.Some? ==> r.kind.File? && r.kind.size >= q.filters.minimumSize.value)
            && (q.filters.maximumSize.Some? ==> r.kind.File? && r.kind.size <= q.filters.maximumSize.value)
            && (q.filters.modifiedFrom.Some? ==> r.updated >= q.filters.modifiedFrom.value)
            && (q.filters.modifiedTo.Some? ==> r.updated <= q.filters.modifiedTo.value)
  {
    ListingFacts(d, q);
    if q.filters.nameContains.Some? {
      ContainsIff(r.normalized, q.filters.nameContains.value);
    }
  }

  lemma ContainsIff(text: string, part: string)
    ensures Contains(text, part) <==> exists i: nat, j: nat | i <= j <= |text| :: text[i..j] == part
  {
    if i :| 0 <= i <= |text| && StartsAt(text, part, i) {
      var j := i + |part|;
      assert text[i..j] == part;
    }
    if i: nat, j: nat :| i <= j <= |text| && text[i..j] == part {
      assert StartsAt(text, part, i);
    }
  }

  /** Ascending or descending by the field asked for, with equal keys in the order of their ids. */
  lemma ListingOrder(d: Database, q: Query, i: nat, j: nat)
    requires DatabaseOk(d) && i < j < |Listing(d, q)|
    ensures var first, last := Listing(d, q)[if q.ascending then i else j], Listing(d, q)[if q.ascending then j else i];
            match q.sort
            case ByName =>
              d.collate(first.normalized, last.normalized)
              && (first.normalized == last.normalized ==> first.id < last.id)
            case ByDate => first.updated < last.updated || (first.updated == last.updated && first.id < last.id)
            case BySize =>
              var low, high := if first.kind.File? then first.kind.size as int else -1,
                               if last.kind.File? then last.kind.size as int else -1;
              low < high || (low == high && first.id < last.id)
            case ByType =>
              d.collate(if first.kind.Folder? then "folder" else "file", if last.kind.Folder? then "folder" else "file")
              && (first.kind.Folder? == last.kind.Folder? ==> first.id < last.id)
  {
    ListingFacts(d, q);
    assert Ahead(d, q, Listing(d, q)[i], Listing(d, q)[j]);
  }

  function Backwards(rows: seq<Row>): (r: seq<Row>)
    ensures |r| == |rows| && forall i | 0 <= i < |rows| :: r[i] == rows[|rows| - 1 - i]
  {
    seq(|rows|, i requires 0 <= i < |rows| => rows[|rows| - 1 - i])
  }

  /** The other direction shows the same rows from the other end. */
  lemma DescendingIsBackwards(d: Database, q: Query)
    requires DatabaseOk(d)
    ensures Listing(d, q.(ascending := !q.ascending)) == Backwards(Listing(d, q))
  {
    var other := q.(ascending := !q.ascending);
    var a, b := Listing(d, other), Backwards(Listing(d, q));
    ListingFacts(d, q);
    ListingFacts(d, other);
    forall i, j | 0 <= i < j < |b| ensures Ahead(d, other, b[i], b[j]) {
      assert Ahead(d, q, Listing(d, q)[|b| - 1 - j], Listing(d, q)[|b| - 1 - i]);
    }
    forall x ensures x in a <==> x in b {
      if x in Listing(d, q) {
        var k :| 0 <= k < |b| && Listing(d, q)[k] == x;
        assert b[|b| - 1 - k] == x;
      }
    }
    SameRowsSameListing(d, other, a, b);
  }

  /** The first check that fails decides; a cursor is looked at before the folder is. */
  lemma ListAnswers(d: Database, q: Query, cursor: Option<Cursor>)
    ensures var r := ListFolder(d, q, cursor);
            if q.limit < 1 || q.limit > 200 then r == Err(InvalidLimit)
            else if (q.filters.minimumSize.Some? && q.filters.minimumSize.value < 0)
                    || (q.filters.maximumSize.Some? && q.filters.maximumSize.value < 0)
                    || (q.filters.minimumSize.Some? && q.filters.maximumSize.Some?
                        && q.filters.maximumSize.value < q.filters.minimumSize.value)
                    || (q.filters.modifiedFrom.Some? && q.filters.modifiedTo.Some?
                        && q.filters.modifiedTo.value < q.filters.modifiedFrom.value) then
              r == Err(InvalidFilters)
            else if cursor.Some? && !(cursor.value.Fields? && cursor.value.version == 1 && cursor.value.sort == q.sort
                                      && cursor.value.ascending == q.ascending && cursor.value.key.Some?
                                      && cursor.value.id.Some?
                                      && (q.sort.ByDate? || q.sort.BySize? ==>
                                            Parse(cursor.value.key.value).Some?)) then
              r == Err(InvalidCursor)
            else if forall i | 0 <= i < |d.rows| && d.rows[i].id == q.folder ::
                      d.rows[i].owner != q.owner || d.rows[i].kind.File? || d.rows[i].deleted then
              r == Err(NotFound)
            else r.Ok? && |r.value.items| <= q.limit
  {
  }
}
